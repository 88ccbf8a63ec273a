/** What an overload constant of a Go+ package says, spelled out
    (internal/gopdoc/z_transform.go, `transformGopo`). */
module GopLaws {
  import opened GopNames
  import opened GopDoc

  lemma SplitOne(part: string)
    requires ',' !in part
    ensures SplitComma(part) == [part]
  {
    assert IndexByte(part, ',') == |part|;
  }

  lemma SplitFirst(part: string, rest: string)
    requires ',' !in part
    ensures SplitComma(part + "," + rest) == [part] + SplitComma(rest)
  {
    hide IndexByte;
    var s, n := part + "," + rest, |part|;
    assert s[n] == ',';
    assert forall j :: 0 <= j < n ==> s[j] == part[j] && part[j] in part;
    IndexByteIs(s, ',', n);
    assert s[..n] == part && s[n + 1..] == rest;
  }

  lemma {:induction false} SplitOfJoined(parts: seq<string>)
    requires parts != [] && forall i :: 0 <= i < |parts| ==> ',' !in parts[i]
    ensures SplitComma(Joined(parts)) == parts
  {
    hide SplitComma;
    if |parts| == 1 {
      assert parts == [parts[0]];
      SplitOne(parts[0]);
    } else {
      SplitFirst(parts[0], Joined(parts[1..]));
      SplitOfJoined(parts[1..]);
      assert parts == [parts[0]] + parts[1..];
    }
  }

  /** Entry `e` says that part `i` of the list stands behind the target: a method of the target's
      own type if the part begins with a dot, else a function. */
  ghost predicate Says(target: Mthd, parts: seq<string>, i: nat, e: Entry)
    requires i < |parts|
  {
    && e.overload.target == target && e.overload.idx == i
    && (forall m :: parts[i] == "." + m ==> e.actual.typ == target.typ && e.actual.name == m)
    && (parts[i] != "" && !("." <= parts[i]) ==> e.actual.typ == "" && e.actual.name == parts[i])
  }

  /** The parts that are not empty, by number. */
  function Filled(parts: seq<string>, n: nat): (r: seq<nat>)
    requires n <= |parts|
    ensures forall k :: 0 <= k < |r| ==> r[k] < n && parts[r[k]] != ""
    ensures forall k, l :: 0 <= k < l < |r| ==> r[k] < r[l]
    ensures forall i :: 0 <= i < n && parts[i] != "" ==> i in r
  {
    if n == 0 then []
    else
      var rest := Filled(parts, n - 1);
      if parts[n - 1] == "" then rest else rest + [n - 1]
  }

  lemma {:induction false} PartsSay(target: Mthd, parts: seq<string>, n: nat)
    requires n <= |parts|
    ensures |PartEntries(target, parts, n)| == |Filled(parts, n)|
    ensures forall k :: 0 <= k < |Filled(parts, n)| ==>
      Says(target, parts, Filled(parts, n)[k], PartEntries(target, parts, n)[k])
  {
    if n > 0 {
      PartsSay(target, parts, n - 1);
      if parts[n - 1] != "" {
        PartSays(target, parts, n - 1);
      }
    }
  }

  lemma PartSays(target: Mthd, parts: seq<string>, i: nat)
    requires i < |parts| && parts[i] != ""
    ensures Says(target, parts, i, Entry(RealOf(target, parts[i]), Overload(target, i)))
  {
    var part := parts[i];
    forall m | part == "." + m
      ensures RealOf(target, part) == Mthd(target.typ, m)
    {
      assert part[1..] == m && part[0] == '.';
    }
  }

  /** The constant `Gopo_Type_Method` with a list of names, for a type without underscore: every
      name that is not empty is behind that method, under its number in the list, in order. */
  lemma MethodConstant(typ: string, method': string, parts: seq<string>)
    requires typ != "" && NoUnderscore(typ) && parts != [] && forall i :: 0 <= i < |parts| ==> ',' !in parts[i]
    ensures var name, es := "Gopo_" + (typ + "_" + method'), Filled(parts, |parts|);
      && IsGopoConst(name) && |GopoEntries(name, Joined(parts))| == |es|
      && forall k :: 0 <= k < |es| ==> Says(Mthd(typ, method'), parts, es[k], GopoEntries(name, Joined(parts))[k])
  {
    hide CheckTypeMethod, SplitComma, Joined, Says, PartEntries, Filled;
    var name := "Gopo_" + (typ + "_" + method');
    assert name[|GOPO_PREFIX|..] == typ + "_" + method';
    PlainMethod(typ, method');
    SplitOfJoined(parts);
    PartsSay(Mthd(typ, method'), parts, |parts|);
  }

  /** The constant `Gopo_Func` for a function without underscore. */
  lemma FuncConstant(func: string, parts: seq<string>)
    requires NoUnderscore(func) && parts != [] && forall i :: 0 <= i < |parts| ==> ',' !in parts[i]
    ensures var name, es := "Gopo_" + func, Filled(parts, |parts|);
      && IsGopoConst(name) && |GopoEntries(name, Joined(parts))| == |es|
      && forall k :: 0 <= k < |es| ==> Says(Mthd("", func), parts, es[k], GopoEntries(name, Joined(parts))[k])
  {
    hide CheckTypeMethod, SplitComma, Joined, Says, PartEntries, Filled;
    var name := "Gopo_" + func;
    assert name[|GOPO_PREFIX|..] == func;
    PlainFunc(func);
    SplitOfJoined(parts);
    PartsSay(Mthd("", func), parts, |parts|);
  }

  /** The suffixes in the order of the positions that they stand for. */
  const SUFFIXES := "0123456789abcdefghijklmnopqrstuvwxyz"

  lemma SuffixPositions(i: nat)
    requires i < 36
    ensures |SUFFIXES| == 36 && ValidIndex(SUFFIXES[i]) && ToIndex(SUFFIXES[i]) == i
  {
  }

  lemma OnlySuffixes(c: char)
    ensures ValidIndex(c) <==> c in SUFFIXES
  {
    if ValidIndex(c) {
      var i := ToIndex(c);
      SuffixPositions(i);
      ToIndexInjective(c, SUFFIXES[i]);
    }
    if c in SUFFIXES {
      var i :| 0 <= i < |SUFFIXES| && SUFFIXES[i] == c;
      SuffixPositions(i);
    }
  }

  // -------------------------------------------------------------- clones

  /** A clone has the name that its overload asks for, the documentation and all the fields of the
      function behind it. For a type the first field is the receiver; otherwise nothing else
      changes. */
  lemma CloneIs(kinds: map<string, Target>, v: FuncValue, o: Overload, c: FuncValue)
    requires IsCloneOf(kinds, v, o, c)
    ensures c.name == o.target.name == c.declName && c.doc == v.doc && AllFields(c) == AllFields(v)
    ensures o.target.typ in kinds
    ensures kinds[o.target.typ].OfType? ==> c.declRecv.Receiver? && c.declRecv.fields != []
    ensures kinds[o.target.typ].Global? ==> c.declRecv == v.declRecv && c.params == v.params && c.recv == v.recv
  {
  }

  lemma {:induction false} LookupExactly(entries: seq<Entry>, actual: Mthd, o: Overload)
    ensures o in Lookup(entries, actual) <==> Entry(actual, o) in entries
  {
    if entries != [] {
      var n := |entries| - 1;
      LookupExactly(entries[..n], actual, o);
      assert entries == entries[..n] + [entries[n]];
    }
  }

  /** The name ends in two underscores and a character that is no suffix. */
  ghost predicate EndsBadly(name: string) {
    exists base, c :: base != "" && name == base + "__" + [c] && c !in SUFFIXES
  }

  lemma BadSuffixExactly(name: string)
    ensures BadSuffix(name) <==> EndsBadly(name)
  {
    hide ValidIndex;
    var n := |name|;
    if BadSuffix(name) {
      var base, c := name[..n - 3], name[n - 1];
      OnlySuffixes(c);
      assert name == base + "__" + [c];
    }
    if EndsBadly(name) {
      var base, c :| base != "" && name == base + "__" + [c] && c !in SUFFIXES;
      assert name[n - 1] == c;
      OnlySuffixes(c);
    }
  }

  /** An entry for the function leads to a type that exists. */
  ghost predicate WantsReceiver(env: Env, typ: string, name: string) {
    exists o: Overload :: Entry(Mthd(typ, name), o) in env.entries && o.target.typ in env.kinds
      && env.kinds[o.target.typ].OfType?
  }

  /** Looking at a function panics exactly if its name ends badly, or a method is to be made of it
      and it has nothing for a receiver. */
  lemma PanicsExactly(env: Env, i: nat)
    requires i < |env.visits| && env.visits[i].f in env.was
    ensures var v := env.was[env.visits[i].f];
      VisitPanics(env, i) <==>
        || EndsBadly(v.name)
        || (WantsReceiver(env, env.visits[i].typ, v.name)
            && (v.declRecv == Receiver([]) || (v.declRecv.NoReceiver? && v.params == [])))
  {
    hide BadSuffix, EndsBadly, Lookup;
    var v, typ := env.was[env.visits[i].f], env.visits[i].typ;
    BadSuffixExactly(v.name);
    var os := Overloads(env, i);
    forall o
      ensures o in os <==> Entry(Mthd(typ, v.name), o) in env.entries
    {
      LookupExactly(env.entries, Mthd(typ, v.name), o);
    }
    if WantsReceiver(env, typ, v.name) {
      var o: Overload :| Entry(Mthd(typ, v.name), o) in env.entries && o.target.typ in env.kinds
        && env.kinds[o.target.typ].OfType?;
      assert o in os;
    }
    assert forall k :: 0 <= k < |os| ==> os[k] in os;
  }

  /** Afterwards a function with an overload suffix goes by its base name, in the documentation and
      in its declaration, and nothing else has changed. */
  lemma RenamedIs(v: FuncValue, base: string, c: char)
    ensures base != "" && v.name == base + "__" + [c] ==> Renamed(v) == v.(name := base, declName := base)
    ensures (forall b, d :: b == "" || v.name != b + "__" + [d]) ==> Renamed(v) == v
  {
    var n := |v.name|;
    if base != "" && v.name == base + "__" + [c] {
      assert v.name[..n - 3] == base;
    }
    if IsOverload(v.name) {
      assert v.name == v.name[..n - 3] + "__" + [v.name[n - 1]];
    }
  }

  // ------------------------------------------------------------- constants

  lemma {:induction false} GroupExactly(specs: seq<ConstSpec>, e: Entry)
    ensures e in GroupEntries(specs) <==> exists j :: 0 <= j < |specs| && e in SpecEntries(specs[j])
  {
    hide SpecEntries;
    if specs != [] {
      var n := |specs| - 1;
      GroupExactly(specs[..n], e);
      assert forall j :: 0 <= j < n ==> specs[..n][j] == specs[j];
    }
  }

  /** Constant `j` of group `i` is an overload list that has the entry. A group counts if any of
      its names has the prefix; of each of its constants only the first name and value do. */
  ghost predicate Lists(consts: seq<ConstGroup>, i: nat, j: nat, e: Entry)
    requires i < |consts| && j < |consts[i].specs|
  {
    && (exists n :: n in consts[i].names && "Gopo_" <= n)
    && var spec := consts[i].specs[j];
       && spec.names != [] && "Gopo_" <= spec.names[0] && spec.values != [] && spec.values[0].StringLit?
       && e in GopoEntries(spec.names[0], spec.values[0].value)
  }

  lemma {:induction false} EntriesExactly(consts: seq<ConstGroup>, e: Entry)
    ensures e in Entries(consts) <==>
      exists i, j :: 0 <= i < |consts| && 0 <= j < |consts[i].specs| && Lists(consts, i, j, e)
  {
    hide GopoEntries, GroupEntries;
    if consts != [] {
      var n := |consts| - 1;
      var front, g := consts[..n], consts[n];
      EntriesExactly(front, e);
      GroupExactly(g.specs, e);
      forall i: nat, j: nat | i < n && j < |consts[i].specs|
        ensures front[i] == consts[i] && Lists(front, i, j, e) == Lists(consts, i, j, e)
      {
      }
      GroupCounts(g);
      assert forall j :: 0 <= j < |g.specs| ==>
          (Lists(consts, n, j, e) <==> HasGopoConst(g) && e in SpecEntries(g.specs[j]));
    }
  }

  lemma GroupCounts(g: ConstGroup)
    ensures HasGopoConst(g) <==> exists n :: n in g.names && "Gopo_" <= n
  {
    if HasGopoConst(g) {
      var i :| 0 <= i < |g.names| && IsGopoConst(g.names[i]);
      assert g.names[i] in g.names && "Gopo_" <= g.names[i];
    }
    if n :| n in g.names && "Gopo_" <= n {
      var i :| 0 <= i < |g.names| && g.names[i] == n;
      assert IsGopoConst(g.names[i]);
    }
  }
}
