/** Grouping sorted lines by prefix (internal/frontend/section.go). */
module SectionSpec {

  /** A section as a value: a single line if it has no subsections. */
  datatype Sec = Sec(prefix: string, subs: seq<Sec>, numLines: nat)

  type PrefixFunc = (string, string) -> string

  /** What `section` needs of a prefix function: from a prefix of the line it goes to a
      longer one, or to "" when there are no more. */
  ghost predicate Lengthens(next: PrefixFunc) {
    forall l: string, p: string :: p <= l ==> next(l, p) == "" || p < next(l, p) <= l
  }

  function Leaves(s: Sec): (r: seq<string>)
    ensures r != []
  {
    if s.subs == [] then [s.prefix] else AllLeaves(s.subs)
  }

  function AllLeaves(ss: seq<Sec>): (r: seq<string>)
    ensures ss != [] ==> r != []
  {
    if ss == [] then [] else Leaves(ss[0]) + AllLeaves(ss[1..])
  }

  /** The line count that `add` keeps: a line counts one, a section its own count. */
  function Counted(ss: seq<Sec>): nat {
    if ss == [] then 0 else Counted(ss[..|ss| - 1]) + LinesOf(ss[|ss| - 1])
  }

  function LinesOf(s: Sec): nat {
    if s.subs == [] then 1 else s.numLines
  }

  datatype Split = Split(subs: seq<Sec>, rest: seq<string>)
  datatype Built = Built(sec: Sec, rest: seq<string>)

  function Slack(prefix: string, lines: seq<string>): nat {
    if lines == [] || |lines[0]| < |prefix| then 0 else |lines[0]| - |prefix|
  }

  /** The loop of `section`: the subsections for the lines that start with `prefix`. */
  ghost function Collect(prefix: string, lines: seq<string>, next: PrefixFunc): (r: Split)
    requires Lengthens(next)
    ensures |r.rest| <= |lines| && (lines != [] && prefix <= lines[0] ==> |r.rest| < |lines| && r.subs != [])
    decreases |lines|, Slack(prefix, lines), 0
  {
    if lines == [] || !(prefix <= lines[0]) then Split([], lines)
    else
      var np := next(lines[0], prefix);
      if np == "" then
        var r := Collect(prefix, lines[1..], next);
        Split([Sec(lines[0], [], 0)] + r.subs, r.rest)
      else
        var b := Build(np, lines, next);
        var r := Collect(prefix, b.rest, next);
        Split([b.sec] + r.subs, r.rest)
  }

  /** `section`: a section with a single subsection collapses into it, except at the top. */
  ghost function Build(prefix: string, lines: seq<string>, next: PrefixFunc): (r: Built)
    requires Lengthens(next)
    ensures |r.rest| <= |lines| && (lines != [] && prefix <= lines[0] ==> |r.rest| < |lines|)
    decreases |lines|, Slack(prefix, lines), 1
  {
    var c := Collect(prefix, lines, next);
    Built(if |c.subs| == 1 && prefix != "" then c.subs[0] else Sec(prefix, c.subs, Counted(c.subs)), c.rest)
  }

  // -------------------------------------------------------------- properties

  /** A well-built section: a line, or at least two well-built subsections, the right line
      count, and only lines that start with its prefix. */
  predicate WellBuilt(s: Sec) {
    s.subs != [] ==>
      && |s.subs| >= 2 && AllWellBuilt(s.subs) && s.numLines == |Leaves(s)|
      && forall i :: 0 <= i < |Leaves(s)| ==> s.prefix <= Leaves(s)[i]
  }

  predicate AllWellBuilt(ss: seq<Sec>) {
    ss == [] || (WellBuilt(ss[0]) && AllWellBuilt(ss[1..]))
  }

  lemma {:induction false} CountedIsLength(ss: seq<Sec>)
    requires AllWellBuilt(ss)
    ensures Counted(ss) == |AllLeaves(ss)|
  {
    if ss != [] {
      var front, last := ss[..|ss| - 1], ss[|ss| - 1];
      assert ss == front + [last];
      WellBuiltSplit(front, [last]);
      LeavesSplit(front, [last]);
      CountedIsLength(front);
      assert AllLeaves([last]) == Leaves(last) + AllLeaves([]);
    }
  }

  lemma {:induction false} WellBuiltSplit(a: seq<Sec>, b: seq<Sec>)
    ensures AllWellBuilt(a + b) <==> AllWellBuilt(a) && AllWellBuilt(b)
  {
    if a == [] {
      assert a + b == b;
    } else {
      assert (a + b)[1..] == a[1..] + b;
      WellBuiltSplit(a[1..], b);
    }
  }

  lemma {:induction false} LeavesSplit(a: seq<Sec>, b: seq<Sec>)
    ensures AllLeaves(a + b) == AllLeaves(a) + AllLeaves(b)
  {
    if a == [] {
      assert a + b == b;
    } else {
      assert (a + b)[1..] == a[1..] + b;
      LeavesSplit(a[1..], b);
    }
  }

  predicate Start(prefix: string, lines: seq<string>) {
    forall i :: 0 <= i < |lines| ==> prefix <= lines[i]
  }

  /** The loop takes the longest run of lines with the prefix, keeps them in order as
      leaves, and builds every subsection well. */
  lemma {:induction false} CollectCorrect(prefix: string, lines: seq<string>, next: PrefixFunc)
    requires Lengthens(next)
    ensures var r := Collect(prefix, lines, next);
      && AllLeaves(r.subs) + r.rest == lines && Start(prefix, AllLeaves(r.subs))
      && (r.rest != [] ==> !(prefix <= r.rest[0])) && AllWellBuilt(r.subs)
    decreases |lines|, Slack(prefix, lines), 0
  {
    hide WellBuilt, AllWellBuilt, Leaves, Start, Build;
    if lines == [] || !(prefix <= lines[0]) {
      NothingTaken(prefix);
    } else {
      var np := next(lines[0], prefix);
      if np == "" {
        CollectCorrect(prefix, lines[1..], next);
        LineWellBuilt(prefix, lines[0]);
        assert [lines[0]] + lines[1..] == lines;
        TakeOne(prefix, Sec(lines[0], [], 0), lines[1..], Collect(prefix, lines[1..], next), lines);
      } else {
        BuildCorrect(np, lines, next);
        var b := Build(np, lines, next);
        CollectCorrect(prefix, b.rest, next);
        StartTrans(prefix, np, Leaves(b.sec));
        TakeOne(prefix, b.sec, b.rest, Collect(prefix, b.rest, next), lines);
      }
    }
  }

  lemma NothingTaken(prefix: string)
    ensures AllWellBuilt([]) && Start(prefix, [])
  {
  }

  lemma LineWellBuilt(prefix: string, l: string)
    requires prefix <= l
    ensures WellBuilt(Sec(l, [], 0)) && Leaves(Sec(l, [], 0)) == [l] && Start(prefix, [l])
  {
  }

  lemma StartTrans(a: string, b: string, lines: seq<string>)
    requires a <= b && Start(b, lines)
    ensures Start(a, lines)
  {
  }

  lemma TakeOne(prefix: string, s: Sec, left: seq<string>, r: Split, lines: seq<string>)
    requires WellBuilt(s) && Start(prefix, Leaves(s)) && Leaves(s) + left == lines
    requires AllLeaves(r.subs) + r.rest == left && Start(prefix, AllLeaves(r.subs)) && AllWellBuilt(r.subs)
    ensures AllLeaves([s] + r.subs) + r.rest == lines && Start(prefix, AllLeaves([s] + r.subs))
    ensures AllWellBuilt([s] + r.subs)
  {
    hide WellBuilt;
    var ss := [s] + r.subs;
    assert ss[1..] == r.subs;
    assert AllLeaves(ss) == Leaves(s) + AllLeaves(r.subs);
  }

  lemma {:induction false} BuildCorrect(prefix: string, lines: seq<string>, next: PrefixFunc)
    requires Lengthens(next) && prefix != "" && lines != [] && prefix <= lines[0]
    ensures var r := Build(prefix, lines, next);
      && Leaves(r.sec) + r.rest == lines && Start(prefix, Leaves(r.sec))
      && (r.rest != [] ==> !(prefix <= r.rest[0])) && WellBuilt(r.sec)
    decreases |lines|, Slack(prefix, lines), 1
  {
    CollectCorrect(prefix, lines, next);
    var c := Collect(prefix, lines, next);
    CountedIsLength(c.subs);
    if |c.subs| == 1 {
      assert c.subs == [c.subs[0]] && c.subs[1..] == [];
      assert AllLeaves(c.subs) == Leaves(c.subs[0]);
    }
  }

  /** `Sections`: the subsections of the unnamed section of all lines. */
  ghost function Sections(lines: seq<string>, next: PrefixFunc): seq<Sec>
    requires Lengthens(next)
  {
    Collect("", lines, next).subs
  }

  /** Read left to right the leaves of the sections are the lines; every section is a line
      or has at least two subsections, counts its lines, and holds only lines that start
      with its prefix. */
  lemma SectionsCorrect(lines: seq<string>, next: PrefixFunc)
    requires Lengthens(next)
    ensures AllLeaves(Sections(lines, next)) == lines && AllWellBuilt(Sections(lines, next))
  {
    CollectCorrect("", lines, next);
  }
}
