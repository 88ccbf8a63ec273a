/** Names in Go+ packages (internal/gopdoc/z_gop.go and internal/gopdoc/z_transform.go). */
module GopNames {

  datatype Mthd = Mthd(typ: string, name: string)
  datatype Overload = Overload(target: Mthd, idx: nat)

  /** An overload and the function that stands behind it. */
  datatype Entry = Entry(actual: Mthd, overload: Overload)

  const GOPO_PREFIX := "Gopo_"
  const GOP_PACKAGE := "GopPackage"

  // ------------------------------------------------------------- searching

  /** `strings.IndexByte`, or the length if there is none. */
  function IndexByte(s: string, c: char): (i: nat)
    ensures i <= |s| && (forall j :: 0 <= j < i ==> s[j] != c) && (i < |s| ==> s[i] == c)
  {
    if s == [] || s[0] == c then 0 else 1 + IndexByte(s[1..], c)
  }

  predicate UnderscoresAt(s: string, i: nat) {
    i + 1 < |s| && s[i] == '_' && s[i + 1] == '_'
  }

  /** `strings.Index(s, "__")`, or the length if there is none. */
  function IndexUnderscores(s: string): (i: nat)
    ensures i <= |s| && (forall j :: 0 <= j < i ==> !UnderscoresAt(s, j)) && (i < |s| ==> UnderscoresAt(s, i))
  {
    if s == [] then 0
    else if UnderscoresAt(s, 0) then 0
    else
      var i := IndexUnderscores(s[1..]);
      assert forall j :: 1 <= j <= i ==> UnderscoresAt(s, j) == UnderscoresAt(s[1..], j - 1);
      assert i < |s[1..]| ==> UnderscoresAt(s, i + 1);
      1 + i
  }

  lemma IndexByteIs(s: string, c: char, i: nat)
    requires i < |s| && s[i] == c && forall j :: 0 <= j < i ==> s[j] != c
    ensures IndexByte(s, c) == i
  {
    var k := IndexByte(s, c);
    assert !(k < i) && !(k > i);
  }

  lemma IndexUnderscoresIs(s: string, i: nat)
    requires UnderscoresAt(s, i) && forall j :: 0 <= j < i ==> !UnderscoresAt(s, j)
    ensures IndexUnderscores(s) == i
  {
    hide IndexUnderscores;
    var k := IndexUnderscores(s);
    assert !(k < i) && !(k > i);
  }

  // ------------------------------------------------------------ name forms

  function CheckTypeMethod(name: string): Mthd {
    var pos := IndexByte(name, '_');
    if pos == |name| then Mthd("", name)
    else if pos > 0 then Mthd(name[..pos], name[pos + 1..])
    else
      var t := name[1..];
      var p := IndexUnderscores(t);
      if p == |t| || p == 0 then Mthd("", t) else Mthd(t[..p], t[p + 2..])
  }

  predicate NoUnderscore(s: string) {
    forall i :: 0 <= i < |s| ==> s[i] != '_'
  }

  /** A function whose name has no underscore is written as it is. */
  lemma PlainFunc(f: string)
    requires NoUnderscore(f)
    ensures CheckTypeMethod(f) == Mthd("", f)
  {
  }

  /** Any other function gets an underscore in front. This reads back exactly when the name
      does not hold two underscores further on, unless it starts with two. */
  lemma MarkedFunc(f: string)
    ensures CheckTypeMethod("_" + f) == Mthd("", f) <==>
      UnderscoresAt(f, 0) || forall i :: 0 <= i < |f| ==> !UnderscoresAt(f, i)
  {
    var name := "_" + f;
    assert name[1..] == f;
    IndexByteIs(name, '_', 0);
    if UnderscoresAt(f, 0) {
      IndexUnderscoresIs(f, 0);
    }
  }

  /** `TypeName_Method` reads back exactly when the type name is not empty and has no
      underscore. */
  lemma PlainMethod(t: string, m: string)
    requires t != []
    ensures CheckTypeMethod(t + "_" + m) == Mthd(t, m) <==> NoUnderscore(t)
  {
    var name := t + "_" + m;
    if NoUnderscore(t) {
      assert forall j :: 0 <= j < |t| ==> name[j] == t[j];
      IndexByteIs(name, '_', |t|);
      assert name[..|t|] == t && name[|t| + 1..] == m;
    } else {
      var i :| 0 <= i < |t| && t[i] == '_';
      assert name[i] == t[i];
      var pos := IndexByte(name, '_');
      assert pos <= i;
      if pos == 0 {
        var rest := name[1..];
        var p := IndexUnderscores(rest);
        assert p < |rest| && p != 0 && |rest[..p]| == |t| ==> |rest[p + 2..]| != |m|;
      }
    }
  }

  /** `_TypeName__Method` reads back when the first pair of underscores after the mark is the
      separator. */
  lemma MarkedMethod(t: string, m: string)
    requires t != []
    ensures CheckTypeMethod("_" + t + "__" + m) == Mthd(t, m) <==>
      forall i :: 0 <= i < |t| ==> !UnderscoresAt(t + "__", i)
  {
    var name, rest, mark := "_" + t + "__" + m, t + "__" + m, t + "__";
    assert name[1..] == rest;
    IndexByteIs(name, '_', 0);
    assert UnderscoresAt(rest, |t|);
    assert forall i :: 0 <= i < |t| ==> UnderscoresAt(rest, i) == UnderscoresAt(mark, i);
    var p := IndexUnderscores(rest);
    if forall i :: 0 <= i < |t| ==> !UnderscoresAt(mark, i) {
      IndexUnderscoresIs(rest, |t|);
      assert rest[..|t|] == t && rest[|t| + 2..] == m;
    } else {
      var i :| 0 <= i < |t| && UnderscoresAt(mark, i);
      assert UnderscoresAt(rest, i);
      assert p <= i < |t|;
      assert |rest[..p]| == p;
    }
  }

  // -------------------------------------------------------- overload suffix

  /** The name ends in two underscores and one more character. */
  predicate IsOverload(name: string) {
    |name| > 3 && name[|name| - 3] == '_' && name[|name| - 2] == '_'
  }

  predicate ValidIndex(c: char) {
    '0' <= c <= '9' || 'a' <= c <= 'z'
  }

  /** The position that an overload suffix stands for: 0 to 9, then a to z. */
  function ToIndex(c: char): (n: nat)
    requires ValidIndex(c)
    ensures n < 36
  {
    if '0' <= c <= '9' then (c as int - '0' as int) else (c as int - 'a' as int + 10)
  }

  /** Different suffixes stand for different positions. */
  lemma ToIndexInjective(c: char, d: char)
    requires ValidIndex(c) && ValidIndex(d) && ToIndex(c) == ToIndex(d)
    ensures c == d
  {
  }

  /** The name without its overload suffix. */
  function BaseName(name: string): (r: string)
    ensures IsOverload(name) ==> r != [] && name == r + name[|name| - 3..]
  {
    if IsOverload(name) then name[..|name| - 3] else name
  }

  // -------------------------------------------------------------- constants

  datatype Expr = StringLit(value: string) | OtherLit

  /** A constant's names and values; a value can be left out. */
  datatype ConstSpec = ConstSpec(names: seq<string>, values: seq<Expr>)

  datatype ConstGroup = ConstGroup(names: seq<string>, specs: seq<ConstSpec>)

  predicate IsGopoConst(name: string) {
    GOPO_PREFIX <= name
  }

  predicate HasGopoConst(g: ConstGroup) {
    exists i :: 0 <= i < |g.names| && IsGopoConst(g.names[i])
  }

  predicate IsGopPackage(consts: seq<ConstGroup>) {
    exists i :: 0 <= i < |consts| && GOP_PACKAGE in consts[i].names
  }

  /** `strings.Split(s, ",")`. */
  function SplitComma(s: string): (parts: seq<string>)
    ensures parts != []
  {
    var i := IndexByte(s, ',');
    if i == |s| then [s] else [s[..i]] + SplitComma(s[i + 1..])
  }

  function Joined(parts: seq<string>): string
    requires parts != []
  {
    if |parts| == 1 then parts[0] else parts[0] + "," + Joined(parts[1..])
  }

  /** Splitting loses nothing and leaves no comma. */
  lemma {:induction false} SplitJoined(s: string)
    ensures Joined(SplitComma(s)) == s
    ensures forall i :: 0 <= i < |SplitComma(s)| ==> ',' !in SplitComma(s)[i]
  {
    var i := IndexByte(s, ',');
    if i < |s| {
      SplitJoined(s[i + 1..]);
      assert SplitComma(s)[1..] == SplitComma(s[i + 1..]);
      assert s == s[..i] + "," + s[i + 1..];
    }
  }

  function RealOf(target: Mthd, part: string): Mthd
    requires part != []
  {
    if part[0] == '.' then Mthd(target.typ, part[1..]) else Mthd("", part)
  }

  /** The entries of the first `n` parts; an empty part keeps its number free. */
  function PartEntries(target: Mthd, parts: seq<string>, n: nat): seq<Entry>
    requires n <= |parts|
  {
    if n == 0 then []
    else
      var rest := PartEntries(target, parts, n - 1);
      if parts[n - 1] == [] then rest else rest + [Entry(RealOf(target, parts[n - 1]), Overload(target, n - 1))]
  }

  function GopoEntries(name: string, value: string): seq<Entry>
    requires IsGopoConst(name)
  {
    PartEntries(CheckTypeMethod(name[|GOPO_PREFIX|..]), SplitComma(value), |SplitComma(value)|)
  }

  /** A constant that is taken for an overload list but has no value. */
  predicate SpecPanics(s: ConstSpec) {
    s.names != [] && IsGopoConst(s.names[0]) && s.values == []
  }

  function SpecEntries(s: ConstSpec): seq<Entry> {
    if s.names != [] && IsGopoConst(s.names[0]) && s.values != [] && s.values[0].StringLit?
      then GopoEntries(s.names[0], s.values[0].value)
    else []
  }

  function GroupEntries(specs: seq<ConstSpec>): seq<Entry> {
    if specs == [] then [] else GroupEntries(specs[..|specs| - 1]) + SpecEntries(specs[|specs| - 1])
  }

  function Entries(consts: seq<ConstGroup>): seq<Entry> {
    if consts == [] then []
    else
      var g := consts[|consts| - 1];
      Entries(consts[..|consts| - 1]) + if HasGopoConst(g) then GroupEntries(g.specs) else []
  }

  predicate AnySpecPanics(specs: seq<ConstSpec>) {
    exists j :: 0 <= j < |specs| && SpecPanics(specs[j])
  }

  predicate ConstsPanic(consts: seq<ConstGroup>) {
    exists i :: 0 <= i < |consts| && HasGopoConst(consts[i]) && AnySpecPanics(consts[i].specs)
  }

  // ---------------------------------------------------------- overload table

  /** The overloads of a function, in order. */
  function Lookup(entries: seq<Entry>, actual: Mthd): seq<Overload> {
    if entries == [] then []
    else
      var e := entries[|entries| - 1];
      Lookup(entries[..|entries| - 1], actual) + if e.actual == actual then [e.overload] else []
  }

  lemma LookupMore(entries: seq<Entry>, e: Entry, actual: Mthd)
    ensures Lookup(entries + [e], actual) == Lookup(entries, actual) + if e.actual == actual then [e.overload] else []
  {
    assert (entries + [e])[..|entries|] == entries;
  }

  /** The table holds the overloads of every function that has some. */
  ghost predicate TableFor(table: map<Mthd, seq<Overload>>, entries: seq<Entry>) {
    forall actual ::
      (actual in table <==> Lookup(entries, actual) != [])
        && (actual in table ==> table[actual] == Lookup(entries, actual))
  }

  method AddGopo(table: map<Mthd, seq<Overload>>, name: string, value: string, ghost entries: seq<Entry>)
    returns (table': map<Mthd, seq<Overload>>)
    requires TableFor(table, entries) && IsGopoConst(name)
    ensures TableFor(table', entries + GopoEntries(name, value))
  {
    hide Lookup, CheckTypeMethod, SplitComma;
    var target := CheckTypeMethod(name[|GOPO_PREFIX|..]);
    var parts := SplitComma(value);
    table' := table;
    assert entries + PartEntries(target, parts, 0) == entries;
    for idx := 0 to |parts|
      invariant TableFor(table', entries + PartEntries(target, parts, idx))
    {
      var part := parts[idx];
      if part != "" {
        var actual := if part[0] == '.' then Mthd(target.typ, part[1..]) else Mthd("", part);
        ghost var before, e := entries + PartEntries(target, parts, idx), Entry(actual, Overload(target, idx));
        table' := table'[actual := (if actual in table' then table'[actual] else []) + [Overload(target, idx)]];
        forall x
          ensures Lookup(before + [e], x) == Lookup(before, x) + if e.actual == x then [e.overload] else []
        {
          LookupMore(before, e, x);
        }
        assert before + [e] == entries + PartEntries(target, parts, idx + 1);
      }
    }
  }

  lemma GroupMore(specs: seq<ConstSpec>, j: nat)
    requires j < |specs|
    ensures GroupEntries(specs[..j + 1]) == GroupEntries(specs[..j]) + SpecEntries(specs[j])
  {
    assert specs[..j + 1][..j] == specs[..j];
  }

  lemma SpecIs(s: ConstSpec)
    requires s.names != []
    ensures !IsGopoConst(s.names[0]) ==> SpecEntries(s) == [] && !SpecPanics(s)
    ensures IsGopoConst(s.names[0]) ==> SpecPanics(s) == (s.values == [])
    ensures IsGopoConst(s.names[0]) && s.values != [] ==>
      SpecEntries(s) == if s.values[0].StringLit? then GopoEntries(s.names[0], s.values[0].value) else []
  {
    hide IsGopoConst, GopoEntries;
  }

  /** The specs of one group of constants. */
  method AddGroup(table: map<Mthd, seq<Overload>>, specs: seq<ConstSpec>, ghost entries: seq<Entry>)
    returns (panicked: bool, table': map<Mthd, seq<Overload>>)
    requires TableFor(table, entries) && forall j :: 0 <= j < |specs| ==> specs[j].names != []
    ensures panicked == AnySpecPanics(specs)
    ensures !panicked ==> TableFor(table', entries + GroupEntries(specs))
  {
    hide Lookup, GopoEntries, TableFor, IsGopoConst, GroupEntries, SpecEntries, SpecPanics;
    table' := table;
    assert entries + GroupEntries(specs[..0]) == entries by { NoSpecs(specs); }
    for j := 0 to |specs|
      invariant TableFor(table', entries + GroupEntries(specs[..j]))
      invariant forall k :: 0 <= k < j ==> !SpecPanics(specs[k])
    {
      var spec := specs[j];
      GroupMore(specs, j);
      SpecIs(spec);
      ghost var now := entries + GroupEntries(specs[..j]);
      assert entries + GroupEntries(specs[..j + 1]) == now + SpecEntries(spec) && now + [] == now;
      if IsGopoConst(spec.names[0]) {
        if spec.values == [] {
          return true, table';
        }
        if spec.values[0].StringLit? {
          table' := AddGopo(table', spec.names[0], spec.values[0].value, now);
        }
      }
    }
    assert specs[..|specs|] == specs;
    panicked := false;
  }

  lemma NoSpecs(specs: seq<ConstSpec>)
    ensures GroupEntries(specs[..0]) == []
  {
  }

  /** `transformConsts`: the table of all overload constants, unless one has no value. */
  method BuildTable(consts: seq<ConstGroup>) returns (panicked: bool, table: map<Mthd, seq<Overload>>)
    requires forall i, j :: 0 <= i < |consts| && 0 <= j < |consts[i].specs| ==> consts[i].specs[j].names != []
    ensures panicked == ConstsPanic(consts)
    ensures !panicked ==> TableFor(table, Entries(consts))
  {
    hide Lookup, TableFor, HasGopoConst, GroupEntries, AnySpecPanics, Entries;
    table := map[];
    EmptyTable();
    for i := 0 to |consts|
      invariant TableFor(table, Entries(consts[..i]))
      invariant forall k :: 0 <= k < i && HasGopoConst(consts[k]) ==> !AnySpecPanics(consts[k].specs)
    {
      EntriesMore(consts, i);
      if HasGopoConst(consts[i]) {
        panicked, table := AddGroup(table, consts[i].specs, Entries(consts[..i]));
        if panicked {
          return;
        }
      }
    }
    assert consts[..|consts|] == consts;
    panicked := false;
  }

  lemma EntriesMore(consts: seq<ConstGroup>, i: nat)
    requires i < |consts|
    ensures Entries(consts[..i + 1]) == if HasGopoConst(consts[i])
      then Entries(consts[..i]) + GroupEntries(consts[i].specs) else Entries(consts[..i])
  {
    hide HasGopoConst, GroupEntries;
    assert consts[..i + 1][..i] == consts[..i];
  }

  lemma EmptyTable()
    ensures TableFor(map[], Entries([]))
  {
  }
}
