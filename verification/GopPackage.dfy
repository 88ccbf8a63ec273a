/** A whole Go+ package: merging clones into sorted lists (internal/gopdoc/z_transform.go). */
module GopPackage {
  import opened GopNames
  import opened GopDoc
  import opened ByteStrings

  // ----------------------------------------------------------------- merging

  /** By name, then by order. */
  predicate KeyLe(n1: string, o1: nat, n2: string, o2: nat) {
    if n1 == n2 then o1 <= o2 else Before(n1, n2)
  }

  lemma KeyTotal(n1: string, o1: nat, n2: string, o2: nat)
    ensures KeyLe(n1, o1, n2, o2) || KeyLe(n2, o2, n1, o1)
  {
    BeforeTotal(n1, n2);
  }

  lemma KeyTransitive(n1: string, o1: nat, n2: string, o2: nat, n3: string, o3: nat)
    requires KeyLe(n1, o1, n2, o2) && KeyLe(n2, o2, n3, o3)
    ensures KeyLe(n1, o1, n3, o3)
  {
    hide Before;
    if n1 != n2 && n2 != n3 {
      BeforeTransitive(n1, n2, n3);
      if n1 == n3 {
        BeforeAntisymmetric(n1, n2);
      }
    }
  }

  function OrderOf(orders: map<Func, nat>, f: Func): nat {
    if f in orders then orders[f] else 0
  }

  predicate FuncLe(orders: map<Func, nat>, f: Func, g: Func)
    reads f, g
  {
    KeyLe(f.name, OrderOf(orders, f), g.name, OrderOf(orders, g))
  }

  predicate Ordered(orders: map<Func, nat>, s: seq<Func>)
    reads s
  {
    forall i, j :: 0 <= i < j < |s| ==> FuncLe(orders, s[i], s[j])
  }

  lemma FuncLeTransitive(orders: map<Func, nat>, f: Func, g: Func, h: Func)
    requires FuncLe(orders, f, g) && FuncLe(orders, g, h)
    ensures FuncLe(orders, f, h)
  {
    hide KeyLe, OrderOf;
    KeyTransitive(f.name, OrderOf(orders, f), g.name, OrderOf(orders, g), h.name, OrderOf(orders, h));
  }

  lemma InsertOrdered(orders: map<Func, nat>, s: seq<Func>, k: nat, f: Func)
    requires Ordered(orders, s) && k <= |s|
    requires (k > 0 ==> FuncLe(orders, s[k - 1], f)) && (k < |s| ==> FuncLe(orders, f, s[k]))
    ensures Ordered(orders, s[..k] + [f] + s[k..])
  {
    hide FuncLe;
    var r := s[..k] + [f] + s[k..];
    forall i, j | 0 <= i < j < |r|
      ensures FuncLe(orders, r[i], r[j])
    {
      if j == k && i < k - 1 {
        FuncLeTransitive(orders, s[i], s[k - 1], f);
      } else if i == k && k < j - 1 {
        FuncLeTransitive(orders, f, s[k], s[j - 1]);
      }
    }
  }

  method InsertFunc(orders: map<Func, nat>, s: seq<Func>, f: Func) returns (r: seq<Func>)
    requires Ordered(orders, s)
    ensures Ordered(orders, r) && multiset(r) == multiset(s) + multiset{f}
  {
    hide FuncLe, Ordered;
    var k := 0;
    while k < |s| && FuncLe(orders, s[k], f)
      invariant 0 <= k <= |s| && (k > 0 ==> FuncLe(orders, s[k - 1], f))
    {
      k := k + 1;
    }
    if k < |s| {
      FuncLeTotal(orders, s[k], f);
    }
    InsertOrdered(orders, s, k, f);
    assert s == s[..k] + s[k..];
    r := s[..k] + [f] + s[k..];
  }

  lemma FuncLeTotal(orders: map<Func, nat>, f: Func, g: Func)
    ensures FuncLe(orders, f, g) || FuncLe(orders, g, f)
  {
    hide KeyLe;
    KeyTotal(f.name, OrderOf(orders, f), g.name, OrderOf(orders, g));
  }

  /** `b` merged into `a`: a list that gets something is sorted, another stays as it is. */
  ghost predicate Merged(orders: map<Func, nat>, a: seq<Func>, b: seq<Func>, r: seq<Func>)
    reads r
  {
    && multiset(r) == multiset(a) + multiset(b)
    && (b == [] ==> r == a)
    && (b != [] ==> Ordered(orders, r))
  }

  /** `mergeFuncs`. Functions with the same name and order may come in any order. */
  method MergeFuncs(orders: map<Func, nat>, a: seq<Func>, b: seq<Func>) returns (r: seq<Func>)
    ensures Merged(orders, a, b, r)
    ensures b == [] ==> r == a
    ensures b != [] ==> forall i, j :: 0 <= i < j < |r| ==>
      Before(r[i].name, r[j].name) && (r[i].name == r[j].name ==> OrderOf(orders, r[i]) <= OrderOf(orders, r[j]))
  {
    if |b| == 0 {
      return a;
    }
    var all := a + b;
    r := [];
    for i := 0 to |all|
      invariant Ordered(orders, r) && multiset(r) == multiset(all[..i])
    {
      assert all[..i + 1] == all[..i] + [all[i]];
      r := InsertFunc(orders, r, all[i]);
    }
    assert all[..|all|] == all;
    OrderedMeans(orders, r);
  }

  lemma OrderedMeans(orders: map<Func, nat>, s: seq<Func>)
    requires Ordered(orders, s)
    ensures forall i, j :: 0 <= i < j < |s| ==>
      Before(s[i].name, s[j].name) && (s[i].name == s[j].name ==> OrderOf(orders, s[i]) <= OrderOf(orders, s[j]))
  {
    hide Before, OrderOf;
    forall i, j | 0 <= i < j < |s|
      ensures Before(s[i].name, s[j].name)
      ensures s[i].name == s[j].name ==> OrderOf(orders, s[i]) <= OrderOf(orders, s[j])
    {
      assert FuncLe(orders, s[i], s[j]);
      BeforeReflexive(s[i].name);
    }
  }

  datatype Key = Key(name: string, order: nat)

  predicate KeysSorted(s: seq<Key>) {
    forall i, j :: 0 <= i < j < |s| ==> KeyLe(s[i].name, s[i].order, s[j].name, s[j].order)
  }

  /** Sorting leaves no choice but among functions with the same name and order. */
  lemma {:induction false} SortedKeysUnique(s: seq<Key>, t: seq<Key>)
    requires KeysSorted(s) && KeysSorted(t) && multiset(s) == multiset(t)
    ensures s == t
  {
    hide KeyLe, KeysSorted;
    SameEmptiness(s, t);
    if s != [] {
      assert s[0] in t by { assert s[0] in multiset(s); }
      assert t[0] in s by { assert t[0] in multiset(t); }
      var i :| 0 <= i < |t| && t[i] == s[0];
      var j :| 0 <= j < |s| && s[j] == t[0];
      FirstKeys(s, t, i, j);
      TailKeys(s);
      TailKeys(t);
      SortedKeysUnique(s[1..], t[1..]);
      assert s == [s[0]] + s[1..] && t == [t[0]] + t[1..];
    }
  }

  lemma SameEmptiness(s: seq<Key>, t: seq<Key>)
    requires multiset(s) == multiset(t)
    ensures s == [] <==> t == []
  {
    assert |multiset(s)| == |s| && |multiset(t)| == |t|;
  }

  lemma TailKeys(s: seq<Key>)
    requires s != []
    ensures multiset(s[1..]) == multiset(s) - multiset{s[0]}
    ensures KeysSorted(s) ==> KeysSorted(s[1..])
  {
    hide KeyLe;
    assert s == [s[0]] + s[1..];
  }

  lemma FirstKeys(s: seq<Key>, t: seq<Key>, i: nat, j: nat)
    requires KeysSorted(s) && KeysSorted(t) && s != [] && i < |t| && t[i] == s[0] && j < |s| && s[j] == t[0]
    ensures s[0] == t[0]
  {
    hide Before;
    if i > 0 && j > 0 && s[0].name != t[0].name {
      BeforeAntisymmetric(s[0].name, t[0].name);
    }
  }

  // ---------------------------------------------------------------- packages

  class Package {
    const consts: seq<ConstGroup>
    const types: seq<Type>
    var funcs: seq<Func>

    constructor (consts: seq<ConstGroup>, types: seq<Type>, funcs: seq<Func>)
      ensures this.consts == consts && this.types == types && this.funcs == funcs
    {
      this.consts, this.types, this.funcs := consts, types, funcs;
    }
  }

  /** Where clones can go: to the package itself, or to the last type of a name. */
  function KindsOf(types: seq<Type>): (kinds: map<string, Target>)
    ensures "" in kinds && forall t :: t in types ==> t.name in kinds
    ensures forall t :: t in kinds && kinds[t].OfType? ==> kinds[t].t.name == t && kinds[t].t in types
    ensures forall t :: t in kinds && kinds[t].Global? ==> t == ""
  {
    if types == [] then map["" := Global]
    else
      var t := types[|types| - 1];
      KindsOf(types[..|types| - 1])[t.name := OfType(t)]
  }

  function Blank(target: Target): Extra {
    Extra(target, [], [])
  }

  /** `newCtx`. */
  method NewExtras(types: seq<Type>) returns (typs: map<string, Extra>)
    ensures ExtrasFit(KindsOf(types), typs, [])
  {
    typs := map["" := Blank(Global)];
    for i := 0 to |types|
      invariant typs.Keys == KindsOf(types[..i]).Keys
      invariant forall t :: t in typs ==> typs[t] == Blank(KindsOf(types[..i])[t])
    {
      assert types[..i + 1][..i] == types[..i];
      typs := typs[types[i].name := Blank(OfType(types[i]))];
    }
    assert types[..|types|] == types;
  }

  /** The functions of types in the order in which they are looked at. */
  function TypeVisits(types: seq<Type>): seq<Visit>
    reads types
  {
    if types == [] then []
    else
      var t := types[|types| - 1];
      TypeVisits(types[..|types| - 1]) + VisitsOf(t.funcs, "") + VisitsOf(t.methods, t.name)
  }

  function AllVisits(p: Package): seq<Visit>
    reads p, p.types
  {
    VisitsOf(p.funcs, "") + TypeVisits(p.types)
  }

  lemma {:induction false} TypeVisitsPrefix(types: seq<Type>, i: nat)
    requires i < |types|
    ensures var a, t, all := TypeVisits(types[..i]), types[i], TypeVisits(types);
      && TypeVisits(types[..i + 1]) == a + VisitsOf(t.funcs, "") + VisitsOf(t.methods, t.name)
      && TypeVisits(types[..i + 1]) <= all
  {
    hide VisitsOf;
    var n := |types| - 1;
    assert types[..i + 1][..i] == types[..i] && types[..n + 1] == types;
    if i < n {
      TypeVisitsPrefix(types[..n], i);
      assert types[..n][..i + 1] == types[..i + 1] && types[..n][..i] == types[..i] && types[..n][i] == types[i];
    }
  }

  lemma NotVisited(visits: seq<Visit>, t: Type)
    ensures t !in VisitObjects(visits)
  {
  }

  /** Where the functions of type `i` are among all visits. */
  lemma TypeSlices(types: seq<Type>, i: nat, visits: seq<Visit>, k: nat)
    requires i < |types| && k <= |visits| && visits[k..] == TypeVisits(types)
    ensures var a, t := k + |TypeVisits(types[..i])|, types[i];
      var b := a + |t.funcs|;
      var c := b + |t.methods|;
      && c <= |visits| && visits[a..b] == VisitsOf(t.funcs, "") && visits[b..c] == VisitsOf(t.methods, t.name)
      && c == k + |TypeVisits(types[..i + 1])|
  {
    hide TypeVisits;
    TypeVisitsPrefix(types, i);
    var a, t := |TypeVisits(types[..i])|, types[i];
    var x, y := VisitsOf(t.funcs, ""), VisitsOf(t.methods, t.name);
    SlicesOf(visits, k, TypeVisits(types[..i]), x, y);
  }

  lemma SliceOf<T>(s: seq<T>, k: nat, a: seq<T>, x: seq<T>)
    requires k <= |s| && a + x <= s[k..]
    ensures k + |a| + |x| <= |s| && s[k + |a|..k + |a| + |x|] == x
  {
    var n := k + |a|;
    assert s[n..n + |x|] == s[k..][|a|..|a| + |x|] == (a + x)[|a|..] == x;
  }

  lemma SlicesOf<T>(s: seq<T>, k: nat, a: seq<T>, x: seq<T>, y: seq<T>)
    requires k <= |s| && a + x + y <= s[k..]
    ensures var n := k + |a|;
      n + |x| + |y| <= |s| && s[n..n + |x|] == x && s[n + |x|..n + |x| + |y|] == y
  {
    SliceOf(s, k, a + x, y);
    SliceOf(s, k, a, x);
  }

  /** `transformTypes`. The lists themselves stay as they are for now. */
  method TransformTypes(c: Context, types: seq<Type>, ghost env: Env, ghost k: nat, ghost made: seq<Made>)
    returns (panicked: bool, ghost made': seq<Made>)
    requires Going(env, c, k, made) && k <= |env.visits| && env.visits[k..] == TypeVisits(types)
    requires Pairs(made) == Expected(env, k)
    modifies c, VisitObjects(env.visits)
    ensures panicked == AnyVisitPanics(env, k, |env.visits|)
    ensures !panicked ==> Going(env, c, |env.visits|, made') && Pairs(made') == Expected(env, |env.visits|)
  {
    hide Going, Expected, VisitPanics, CloneObjects, VisitObjects, Pairs, VisitsOf, EnvOk, TypeVisits;
    GoingEnv(env, c, k, made);
    made' := made;
    ghost var at := k;
    NoVisits(types);
    forall t | t in types
      ensures t !in VisitObjects(env.visits)
    {
      NotVisited(env.visits, t);
    }
    for i := 0 to |types|
      invariant at == k + |TypeVisits(types[..i])| && at <= |env.visits| && env.visits[k..] == TypeVisits(types)
      invariant Going(env, c, at, made') && Pairs(made') == Expected(env, at) && !AnyVisitPanics(env, k, at)
    {
      var t := types[i];
      TypeSlices(types, i, env.visits, k);
      panicked, made' := TransformFuncs(c, t.funcs, "", env, at, made');
      if panicked {
        return;
      }
      at := at + |t.funcs|;
      assert t.methods == old(t.methods);
      panicked, made' := TransformFuncs(c, t.methods, t.name, env, at, made');
      if panicked {
        return;
      }
      at := at + |t.methods|;
    }
    assert types[..|types|] == types;
    panicked := false;
  }

  lemma NoVisits(types: seq<Type>)
    ensures TypeVisits(types[..0]) == []
  {
  }

  /** The lists of one target as they should be. */
  ghost predicate TypeFinished(orders: map<Func, nat>, t: Type, was: seq<Func>, extra: seq<Func>)
    reads t, t.methods
  {
    Merged(orders, was, extra, t.methods)
  }

  /** Merges the clones of one type. */
  method FinishType(orders: map<Func, nat>, t: Type, ex: Extra)
    requires ex.funcs == []
    modifies t
    ensures t.funcs == old(t.funcs) && TypeFinished(orders, t, old(t.methods), ex.methods)
  {
    t.funcs := MergeFuncs(orders, t.funcs, ex.funcs);
    t.methods := MergeFuncs(orders, t.methods, ex.methods);
  }

  lemma ExtraKeys(kinds: map<string, Target>, typs: map<string, Extra>, made: seq<Made>)
    requires ExtrasFit(kinds, typs, made)
    ensures typs.Keys == kinds.Keys
  {
  }

  lemma ExtraAt(kinds: map<string, Target>, typs: map<string, Extra>, made: seq<Made>, t: string)
    requires ExtrasFit(kinds, typs, made) && t in kinds
    ensures t in typs && typs[t] == if kinds[t].Global? then Extra(Global, Picked(made, t), [])
      else Extra(kinds[t], [], Picked(made, t))
  {
    hide Picked;
  }

  /** `finish`, for the targets in whatever order they are met. */
  method Finish(p: Package, c: Context, ghost kinds: map<string, Target>, ghost made: seq<Made>)
    requires ExtrasFit(kinds, c.typs, made) && kinds == KindsOf(p.types)
    modifies p, p.types
    ensures kinds[""].Global? ==> Merged(c.orders, old(p.funcs), Picked(made, ""), p.funcs)
    ensures !kinds[""].Global? ==> p.funcs == old(p.funcs)
    ensures forall t :: t in p.types ==> t.funcs == old(t.funcs)
    ensures forall t :: t in kinds && kinds[t].OfType? ==>
      TypeFinished(c.orders, kinds[t].t, old(kinds[t].t.methods), Picked(made, t))
    ensures forall t :: t in p.types && kinds[t.name] != OfType(t) ==> t.methods == old(t.methods)
  {
    hide KindsOf, Picked, Merged, TypeFinished, ExtrasFit;
    ExtraKeys(kinds, c.typs, made);
    var left := c.typs.Keys;
    while left != {}
      invariant left <= kinds.Keys
      invariant p.funcs == old(p.funcs) || ("" !in left && kinds[""].Global?)
      invariant "" !in left && kinds[""].Global? ==> Merged(c.orders, old(p.funcs), Picked(made, ""), p.funcs)
      invariant forall t :: t in p.types ==> t.funcs == old(t.funcs)
      invariant forall t :: t in kinds && kinds[t].OfType? && t !in left ==>
        TypeFinished(c.orders, kinds[t].t, old(kinds[t].t.methods), Picked(made, t))
      invariant forall t :: t in p.types && (t.name in left || kinds[t.name] != OfType(t)) ==>
        t.methods == old(t.methods)
      decreases left
    {
      var name :| name in left;
      var ex := c.typs[name];
      ExtraAt(kinds, c.typs, made, name);
      if ex.target.OfType? {
        FinishType(c.orders, ex.target.t, ex);
      } else {
        p.funcs := MergeFuncs(c.orders, p.funcs, ex.funcs);
      }
      left := left - {name};
    }
  }

  // --------------------------------------------------------------- transform

  /** Every declaration has its own function and identifier. */
  ghost predicate Separate(visits: seq<Visit>) {
    forall i, j :: 0 <= i < j < |visits| ==>
      visits[i].f != visits[j].f && visits[i].f.decl.ident != visits[j].f.decl.ident
  }

  ghost function WasOf(visits: seq<Visit>): (was: map<Func, FuncValue>)
    reads VisitObjects(visits)
    ensures forall i :: 0 <= i < |visits| ==> visits[i].f in was && was[visits[i].f] == ValueOf(visits[i].f)
  {
    assert forall i :: 0 <= i < |visits| ==>
        visits[i].f as object in VisitObjects(visits) && visits[i].f.decl.ident as object in VisitObjects(visits);
    map v | v in visits :: v.f := ValueOf(v.f)
  }

  lemma WasFits(env: Env)
    requires EnvOk(env) && env.was == WasOf(env.visits)
    ensures OriginalsFit(env, 0)
  {
    hide ValueOf, WasOf;
    forall i | 0 <= i < |env.visits|
      ensures env.visits[i].f in VisitObjects(env.visits) && env.visits[i].f.decl.ident in VisitObjects(env.visits)
    {
      Visited(env.visits, i);
    }
  }

  /** What is known of a package before it is transformed. */
  ghost function EnvOf(p: Package): (env: Env)
    requires Separate(AllVisits(p))
    reads p, p.types, VisitObjects(AllVisits(p))
    ensures EnvOk(env) && env.visits == AllVisits(p) && env.kinds == KindsOf(p.types)
    ensures env.entries == Entries(p.consts)
    ensures OriginalsFit(env, 0)
  {
    hide AllVisits, WasOf, OriginalsFit, VisitObjects;
    var visits := AllVisits(p);
    var env := Env(Entries(p.consts), KindsOf(p.types), WasOf(visits), visits);
    WasFits(env);
    env
  }

  /** Clones and originals after all functions were looked at. */
  ghost predicate Expanded(env: Env, orders: map<Func, nat>, made: seq<Made>)
    reads VisitObjects(env.visits), CloneObjects(made)
  {
    && EnvOk(env) && Pairs(made) == Expected(env, |env.visits|)
    && OriginalsFit(env, |env.visits|) && ClonesFit(env, made) && OrdersFit(env, orders, |env.visits|, made)
    && CloneObjects(made) !! VisitObjects(env.visits)
  }

  lemma GoingAtStart(env: Env, c: Context)
    requires EnvOk(env) && OriginalsFit(env, 0) && TableFor(c.table, env.entries) && ExtrasFit(env.kinds, c.typs, [])
    requires c.orders == map[]
    requires c !in VisitObjects(env.visits)
    ensures Going(env, c, 0, []) && Pairs([]) == Expected(env, 0)
  {
    hide VisitObjects, OriginalsFit, TableFor, ExtrasFit;
  }

  lemma GoingAtEnd(env: Env, c: Context, made: seq<Made>)
    requires Going(env, c, |env.visits|, made) && Pairs(made) == Expected(env, |env.visits|)
    ensures Expanded(env, c.orders, made) && ExtrasFit(env.kinds, c.typs, made)
  {
    hide EnvOk, VisitObjects, CloneObjects, OriginalsFit, ClonesFit, ExtrasFit, OrdersFit, Pairs, Expected;
  }

  /** The part of `Transform` before the lists are merged. */
  method Expand(p: Package, c: Context, ghost env: Env) returns (panicked: bool, ghost made: seq<Made>)
    requires EnvOk(env) && env.visits == AllVisits(p) && OriginalsFit(env, 0) && TableFor(c.table, env.entries)
    requires ExtrasFit(env.kinds, c.typs, []) && c.orders == map[]
    requires c !in VisitObjects(env.visits)
    modifies c, VisitObjects(env.visits)
    ensures panicked == AnyVisitPanics(env, 0, |env.visits|)
    ensures !panicked ==> Expanded(env, c.orders, made) && ExtrasFit(env.kinds, c.typs, made)
  {
    hide EnvOk, VisitObjects, CloneObjects, OriginalsFit, ClonesFit, ExtrasFit, OrdersFit, Pairs, Expected, Going,
         TypeVisits, VisitsOf, Expanded, VisitPanics, TableFor;
    GoingAtStart(env, c);
    ghost var n := |p.funcs|;
    VisitsLength(p.funcs);
    assert env.visits[0..n] == VisitsOf(p.funcs, "") && env.visits[n..] == TypeVisits(p.types);
    forall t | t in p.types
      ensures t !in VisitObjects(env.visits)
    {
      NotVisited(env.visits, t);
    }
    panicked, made := TransformFuncs(c, p.funcs, "", env, 0, []);
    if panicked {
      return;
    }
    assert env.visits[n..] == TypeVisits(p.types);
    panicked, made := TransformTypes(c, p.types, env, n, made);
    if !panicked {
      GoingAtEnd(env, c, made);
    }
  }

  lemma VisitsLength(list: seq<Func>)
    ensures |VisitsOf(list, "")| == |list|
  {
  }

  lemma Apart(p: Package, visits: seq<Visit>, made: seq<Made>)
    ensures p !in VisitObjects(visits) && p !in CloneObjects(made)
    ensures forall t :: t in p.types ==> t !in VisitObjects(visits) && t !in CloneObjects(made)
  {
  }

  /** `Transform`, for a Go+ package. */
  method TransformGop(p: Package, ghost env: Env)
    returns (panicked: bool, ghost orders: map<Func, nat>, ghost made: seq<Made>)
    requires EnvOk(env) && env.visits == AllVisits(p) && env.kinds == KindsOf(p.types)
    requires env.entries == Entries(p.consts) && OriginalsFit(env, 0)
    requires forall i, j :: 0 <= i < |p.consts| && 0 <= j < |p.consts[i].specs| ==> p.consts[i].specs[j].names != []
    modifies p, p.types, VisitObjects(env.visits)
    ensures panicked <==> ConstsPanic(p.consts) || AnyVisitPanics(env, 0, |env.visits|)
    ensures !panicked ==>
      && Expanded(env, orders, made)
      && (if env.kinds[""].Global? then Merged(orders, old(p.funcs), Picked(made, ""), p.funcs)
           else p.funcs == old(p.funcs))
      && (forall t :: t in p.types ==> t.funcs == old(t.funcs))
      && (forall t :: t in env.kinds && env.kinds[t].OfType? ==>
           TypeFinished(orders, env.kinds[t].t, old(env.kinds[t].t.methods), Picked(made, t)))
      && (forall t :: t in p.types && env.kinds[t.name] != OfType(t) ==> t.methods == old(t.methods))
  {
    hide AllVisits, EnvOk, OriginalsFit, ClonesFit, ExtrasFit, OrdersFit, TableFor, Expanded, Merged, TypeFinished,
         Picked, KindsOf, ConstsPanic, AnyVisitPanics, Expected, Pairs, Entries;
    orders, made := map[], [];
    Apart(p, env.visits, []);
    var table;
    panicked, table := BuildTable(p.consts);
    if panicked {
      return;
    }
    var typs := NewExtras(p.types);
    var c := new Context(table, typs);
    panicked, made := Expand(p, c, env);
    if !panicked {
      orders := c.orders;
      Apart(p, env.visits, made);
      Finish(p, c, env.kinds, made);
    }
  }

  /** `Transform`. A Go+ package keeps every function in its list and gets the clones that are
      due; any other package stays as it is. */
  method Transform(p: Package) returns (panicked: bool, ghost orders: map<Func, nat>, ghost made: seq<Made>)
    requires Separate(AllVisits(p))
    requires forall i, j :: 0 <= i < |p.consts| && 0 <= j < |p.consts[i].specs| ==> p.consts[i].specs[j].names != []
    modifies p, p.types, VisitObjects(AllVisits(p))
    ensures !IsGopPackage(p.consts) ==>
      !panicked && made == [] && p.funcs == old(p.funcs) && OriginalsFit(old(EnvOf(p)), 0)
    ensures !IsGopPackage(p.consts) ==> forall t :: t in p.types ==>
      t.funcs == old(t.funcs) && t.methods == old(t.methods)
    ensures IsGopPackage(p.consts) ==>
      (panicked <==> ConstsPanic(p.consts) || AnyVisitPanics(old(EnvOf(p)), 0, |old(EnvOf(p)).visits|))
    ensures IsGopPackage(p.consts) && !panicked ==>
      var kinds := KindsOf(p.types);
      && Expanded(old(EnvOf(p)), orders, made)
      && (if kinds[""].Global? then Merged(orders, old(p.funcs), Picked(made, ""), p.funcs)
           else p.funcs == old(p.funcs))
      && (forall t :: t in p.types ==> t.funcs == old(t.funcs))
      && (forall t :: t in kinds && kinds[t].OfType? ==>
           TypeFinished(orders, kinds[t].t, old(kinds[t].t.methods), Picked(made, t)))
      && (forall t :: t in p.types && kinds[t.name] != OfType(t) ==> t.methods == old(t.methods))
  {
    hide *;
    panicked, orders, made := false, map[], [];
    ghost var env := EnvOf(p);
    if IsGopPackage(p.consts) {
      panicked, orders, made := TransformGop(p, env);
    }
  }

  // ------------------------------------------------- how many, and where

  /** How often the constants ask for this overload of this function. */
  function Asked(entries: seq<Entry>, o: Overload, actual: Mthd): nat {
    if entries == [] then 0
    else
      var e := entries[|entries| - 1];
      Asked(entries[..|entries| - 1], o, actual) + if e == Entry(actual, o) then 1 else 0
  }

  lemma {:induction false} AskedIsLookup(entries: seq<Entry>, o: Overload, actual: Mthd)
    ensures multiset(Lookup(entries, actual))[o] == Asked(entries, o, actual)
  {
    if entries != [] {
      AskedIsLookup(entries[..|entries| - 1], o, actual);
    }
  }

  lemma {:induction false} DueCount(kinds: map<string, Target>, os: seq<Overload>, f: Func, o: Overload, g: Func)
    ensures multiset(Due(kinds, os, f))[Pair(o, g)] == if f == g && o.target.typ in kinds then multiset(os)[o] else 0
  {
    if os != [] {
      var n := |os| - 1;
      DueCount(kinds, os[..n], f, o, g);
      assert os == os[..n] + [os[n]];
    }
  }

  /** The clones of a function are exactly those that the constants ask for and whose target
      exists, one for each entry. */
  lemma {:induction false} OneClonePerEntry(env: Env, k: nat, i: nat, o: Overload)
    requires EnvOk(env) && k <= |env.visits| && i < |env.visits|
    ensures var f := env.visits[i].f;
      multiset(Expected(env, k))[Pair(o, f)] ==
        if i < k && o.target.typ in env.kinds then Asked(env.entries, o, Mthd(env.visits[i].typ, env.was[f].name))
          else 0
  {
    hide Due, Asked, Lookup;
    if k > 0 {
      OneClonePerEntry(env, k - 1, i, o);
      var f, g := env.visits[k - 1].f, env.visits[i].f;
      DueCount(env.kinds, Overloads(env, k - 1), f, o, g);
      AskedIsLookup(env.entries, o, Mthd(env.visits[k - 1].typ, env.was[f].name));
    }
  }

  /** A clone is in the list of its own target, once, and in no other. */
  lemma {:induction false} PickedOnce(made: seq<Made>, t: string, i: nat)
    requires i < |made| && forall a, b :: 0 <= a < b < |made| ==> made[a].clone != made[b].clone
    ensures multiset(Picked(made, t))[made[i].clone] == if made[i].pair.overload.target.typ == t then 1 else 0
  {
    var n := |made| - 1;
    if i < n {
      PickedOnce(made[..n], t, i);
    } else {
      PickedOld(made[..n], t, made[n].clone);
    }
  }

  lemma {:induction false} PickedOld(made: seq<Made>, t: string, f: Func)
    requires forall a :: 0 <= a < |made| ==> made[a].clone != f
    ensures multiset(Picked(made, t))[f] == 0
  {
    if made != [] {
      PickedOld(made[..|made| - 1], t, f);
    }
  }

  /** An original function stays in its list exactly as often as it was there. */
  lemma OriginalsStay(env: Env, orders: map<Func, nat>, made: seq<Made>, was: seq<Func>, t: string, r: seq<Func>,
                      i: nat)
    requires Expanded(env, orders, made) && Merged(orders, was, Picked(made, t), r) && i < |env.visits|
    ensures multiset(r)[env.visits[i].f] == multiset(was)[env.visits[i].f]
  {
    hide EnvOk, OriginalsFit, ClonesFit, OrdersFit, Expected, Pairs, Picked;
    var f := env.visits[i].f;
    Visited(env.visits, i);
    forall a | 0 <= a < |made|
      ensures made[a].clone != f
    {
      assert made[a].clone as object in CloneObjects(made);
    }
    PickedOld(made, t, f);
  }
}
