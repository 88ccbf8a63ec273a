/** The sections as the code builds them: objects that `add` updates in place. */
module SectionObjects {
  import opened SectionSpec

  class Section {
    var prefix: string
    var subs: seq<Section>
    var numLines: nat
    ghost var value: Sec
    ghost var repr: set<Section>

    /** The object and the objects below it form a tree that holds `value`. */
    ghost predicate Valid()
      reads this, repr
      decreases repr
    {
      && this in repr && value.prefix == prefix && value.numLines == numLines && |value.subs| == |subs|
      && forall i :: 0 <= i < |subs| ==>
        && subs[i] in repr && subs[i].repr < repr && this !in subs[i].repr
        && subs[i].Valid() && subs[i].value == value.subs[i]
    }

    constructor (prefix: string)
      ensures Valid() && fresh(repr) && value == Sec(prefix, [], 0) && this.prefix == prefix
    {
      this.prefix, subs, numLines := prefix, [], 0;
      value, repr := Sec(prefix, [], 0), {this};
    }

    method Add(sub: Section)
      requires Valid() && sub.Valid() && this !in sub.repr
      modifies this
      ensures Valid() && repr == old(repr) + sub.repr && prefix == old(prefix)
      ensures value == Sec(old(value).prefix, old(value).subs + [sub.value], old(value).numLines + LinesOf(sub.value))
    {
      subs := subs + [sub];
      if sub.subs == [] {
        numLines := numLines + 1;
      } else {
        numLines := numLines + sub.numLines;
      }
      value := Sec(value.prefix, value.subs + [sub.value], numLines);
      repr := repr + sub.repr;
      assert sub.repr < repr;
    }
  }

  /** One turn of the loop: the subsection for the first line and those that go with it. */
  method NextSub(prefix: string, lines: seq<string>, next: PrefixFunc) returns (sub: Section, rest: seq<string>)
    requires Lengthens(next) && lines != [] && prefix <= lines[0]
    ensures sub.Valid() && fresh(sub.repr) && |rest| < |lines|
    ensures var r := Collect(prefix, rest, next);
      Collect(prefix, lines, next) == Split([sub.value] + r.subs, r.rest)
    decreases |lines|, Slack(prefix, lines), 0
  {
    hide Collect, Build, Lengthens;
    CollectStep(prefix, lines, next);
    Longer(lines[0], prefix, next);
    var np := next(lines[0], prefix);
    if np == "" {
      sub := new Section(lines[0]);
      rest := lines[1..];
    } else {
      sub, rest := BuildSection(np, lines, next);
    }
  }

  /** `section`, with its loop and its recursion. */
  method BuildSection(prefix: string, lines: seq<string>, next: PrefixFunc) returns (s: Section, rest: seq<string>)
    requires Lengthens(next)
    ensures s.Valid() && fresh(s.repr) && s.value == Build(prefix, lines, next).sec
    ensures rest == Build(prefix, lines, next).rest
    decreases |lines|, Slack(prefix, lines), 1
  {
    hide Collect, Build, Counted, Lengthens;
    s := new Section(prefix);
    rest := lines;
    ghost var all := Collect(prefix, lines, next);
    NoneCounted();
    BuildStep(prefix, lines, next);
    while rest != []
      invariant s.Valid() && fresh(s.repr) && s.prefix == prefix && (rest == lines || |rest| < |lines|)
      invariant s.value == Sec(prefix, s.value.subs, Counted(s.value.subs))
      invariant Split(s.value.subs + Collect(prefix, rest, next).subs, Collect(prefix, rest, next).rest) == all
      decreases |rest|
    {
      if !(prefix <= rest[0]) {
        break;
      }
      var sub: Section;
      sub, rest := NextSub(prefix, rest, next);
      assert s.value.subs + ([sub.value] + Collect(prefix, rest, next).subs)
          == (s.value.subs + [sub.value]) + Collect(prefix, rest, next).subs;
      CountedStep(s.value.subs, sub.value);
      s.Add(sub);
    }
    CollectStep(prefix, rest, next);
    assert s.value.subs + [] == s.value.subs;
    if |s.subs| == 1 && prefix != "" {
      s := s.subs[0];
    }
  }

  lemma NoneCounted()
    ensures Counted([]) == 0
  {
  }

  lemma Longer(l: string, prefix: string, next: PrefixFunc)
    requires Lengthens(next) && prefix <= l
    ensures next(l, prefix) == "" || |prefix| < |next(l, prefix)| <= |l|
    ensures next(l, prefix) != "" ==> next(l, prefix) <= l
  {
  }

  lemma BuildStep(prefix: string, lines: seq<string>, next: PrefixFunc)
    requires Lengthens(next)
    ensures var c := Collect(prefix, lines, next);
      && Build(prefix, lines, next).rest == c.rest
      && Build(prefix, lines, next).sec == if |c.subs| == 1 && prefix != "" then c.subs[0]
           else Sec(prefix, c.subs, Counted(c.subs))
  {
  }

  lemma CollectStep(prefix: string, lines: seq<string>, next: PrefixFunc)
    requires Lengthens(next)
    ensures lines == [] || !(prefix <= lines[0]) ==> Collect(prefix, lines, next) == Split([], lines)
    ensures lines != [] && prefix <= lines[0] ==>
      var np := next(lines[0], prefix);
      if np == "" then
        var r := Collect(prefix, lines[1..], next);
        Collect(prefix, lines, next) == Split([Sec(lines[0], [], 0)] + r.subs, r.rest)
      else
        var b := Build(np, lines, next);
        var r := Collect(prefix, b.rest, next);
        Collect(prefix, lines, next) == Split([b.sec] + r.subs, r.rest)
  {
    hide Build;
  }

  lemma CountedStep(ss: seq<Sec>, s: Sec)
    ensures Counted(ss + [s]) == Counted(ss) + LinesOf(s)
  {
    assert (ss + [s])[..|ss|] == ss;
  }

  method SectionList(lines: seq<string>, next: PrefixFunc) returns (subs: seq<Section>)
    requires Lengthens(next)
    ensures |subs| == |Sections(lines, next)|
    ensures forall i :: 0 <= i < |subs| ==> subs[i].Valid() && subs[i].value == Sections(lines, next)[i]
  {
    var s, _ := BuildSection("", lines, next);
    subs := s.subs;
  }
}
