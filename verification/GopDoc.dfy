/** Expanding the overloads of a Go+ package in its documentation
    (internal/gopdoc/z_transform.go). */
module GopDoc {
  import opened GopNames

  // ------------------------------------------------------------ declarations

  datatype TypeExpr = Named(name: string) | StarNamed(name: string) | OtherType(id: int)
  datatype Field = Field(names: seq<string>, typ: TypeExpr)
  datatype Receiver = NoReceiver | Receiver(fields: seq<Field>)

  class Ident {
    var name: string

    constructor (name: string)
      ensures this.name == name
    {
      this.name := name;
    }
  }

  /** A declaration is not changed once it is made, apart from its identifier's name. */
  datatype Decl = Decl(ident: Ident, recv: Receiver, params: seq<Field>)

  class Func {
    var name: string
    const recv: string
    const decl: Decl
    const doc: int

    constructor (name: string, recv: string, decl: Decl, doc: int)
      ensures this.name == name && this.recv == recv && this.decl == decl && this.doc == doc
    {
      this.name, this.recv, this.decl, this.doc := name, recv, decl, doc;
    }
  }

  class Type {
    const name: string
    var funcs: seq<Func>
    var methods: seq<Func>

    constructor (name: string, funcs: seq<Func>, methods: seq<Func>)
      ensures this.name == name && this.funcs == funcs && this.methods == methods
    {
      this.name, this.funcs, this.methods := name, funcs, methods;
    }
  }

  // ------------------------------------------------------------------ values

  datatype FuncValue = FuncValue(name: string, declName: string, recv: string, declRecv: Receiver, params: seq<Field>,
    doc: int)

  function ValueOf(f: Func): FuncValue
    reads f, f.decl.ident
  {
    FuncValue(f.name, f.decl.ident.name, f.recv, f.decl.recv, f.decl.params, f.doc)
  }

  function AllFields(v: FuncValue): seq<Field> {
    (if v.declRecv.Receiver? then v.declRecv.fields else []) + v.params
  }

  /** `docRecv`: how a receiver's type is written, or the text that was there. */
  function RecvText(f: Field, otherwise: string): string {
    match f.typ
    case Named(n) => n
    case StarNamed(n) => "*" + n
    case OtherType(_) => otherwise
  }

  function FuncClone(name: string, v: FuncValue): FuncValue {
    v.(name := name, declName := name)
  }

  /** Nothing can serve as the receiver. */
  predicate NoFirst(v: FuncValue) {
    AllFields(v) == [] || v.declRecv == Receiver([])
  }

  /** A method clone: the first parameter of a plain function becomes the receiver. */
  function MethodClone(name: string, v: FuncValue): (r: FuncValue)
    requires !NoFirst(v)
    ensures r.name == r.declName == name && r.doc == v.doc
    ensures r.declRecv.Receiver? && r.declRecv.fields != [] && AllFields(r) == AllFields(v)
    ensures match r.declRecv.fields[0].typ
      case Named(n) => r.recv == n
      case StarNamed(n) => r.recv == "*" + n
      case OtherType(_) => r.recv == v.recv
  {
    var v' := if v.declRecv.NoReceiver? then v.(declRecv := Receiver(v.params[..1]), params := v.params[1..]) else v;
    v'.(name := name, declName := name, recv := RecvText(v'.declRecv.fields[0], v.recv))
  }

  /** An original function afterwards: an overload suffix is cut off. */
  function Renamed(v: FuncValue): FuncValue {
    if IsOverload(v.name) then v.(name := BaseName(v.name), declName := BaseName(v.name)) else v
  }

  /** An overload suffix that stands for no position. */
  predicate BadSuffix(name: string) {
    IsOverload(name) && !ValidIndex(name[|name| - 1])
  }

  method NewFunc(name: string, f: Func) returns (r: Func)
    ensures fresh(r) && fresh(r.decl.ident) && ValueOf(r) == FuncClone(name, ValueOf(f))
  {
    var id := new Ident(name);
    r := new Func(name, f.recv, Decl(id, f.decl.recv, f.decl.params), f.doc);
  }

  method NewMethod(name: string, f: Func) returns (r: Func)
    requires !NoFirst(ValueOf(f))
    ensures fresh(r) && fresh(r.decl.ident) && ValueOf(r) == MethodClone(name, ValueOf(f))
  {
    var id := new Ident(name);
    var recv, params := f.decl.recv, f.decl.params;
    if recv.NoReceiver? {
      recv, params := Receiver(params[..1]), params[1..];
    }
    r := new Func(name, RecvText(recv.fields[0], f.recv), Decl(id, recv, params), f.doc);
  }

  // -------------------------------------------------------------- what is due

  datatype Target = Global | OfType(t: Type)

  /** A function that is looked at, and the type under which overloads name it. */
  datatype Visit = Visit(f: Func, typ: string)

  /** A clone that is due: which overload, of which function. */
  datatype Pair = Pair(overload: Overload, src: Func)
  datatype Made = Made(pair: Pair, clone: Func)

  /** What is fixed while a package is transformed: its overload entries, the targets by name,
      the functions as they were and the order in which they are looked at. */
  datatype Env = Env(entries: seq<Entry>, kinds: map<string, Target>, was: map<Func, FuncValue>, visits: seq<Visit>)

  ghost predicate EnvOk(env: Env) {
    && (forall i :: 0 <= i < |env.visits| ==> env.visits[i].f in env.was)
    && (forall i, j :: 0 <= i < j < |env.visits| ==>
         env.visits[i].f != env.visits[j].f && env.visits[i].f.decl.ident != env.visits[j].f.decl.ident)
  }

  function Overloads(env: Env, i: nat): seq<Overload>
    requires i < |env.visits| && env.visits[i].f in env.was
  {
    Lookup(env.entries, Mthd(env.visits[i].typ, env.was[env.visits[i].f].name))
  }

  /** The overloads whose target exists, for one function. */
  function Due(kinds: map<string, Target>, overloads: seq<Overload>, f: Func): seq<Pair> {
    if overloads == [] then []
    else
      var o := overloads[|overloads| - 1];
      Due(kinds, overloads[..|overloads| - 1], f) + if o.target.typ in kinds then [Pair(o, f)] else []
  }

  /** All clones that are due for the first `k` functions. */
  function Expected(env: Env, k: nat): seq<Pair>
    requires k <= |env.visits| && forall i :: 0 <= i < |env.visits| ==> env.visits[i].f in env.was
  {
    if k == 0 then [] else Expected(env, k - 1) + Due(env.kinds, Overloads(env, k - 1), env.visits[k - 1].f)
  }

  predicate ClonePanics(kinds: map<string, Target>, overloads: seq<Overload>, v: FuncValue) {
    NoFirst(v) && exists i ::
      0 <= i < |overloads| && overloads[i].target.typ in kinds && kinds[overloads[i].target.typ].OfType?
  }

  predicate VisitPanics(env: Env, i: nat)
    requires i < |env.visits| && env.visits[i].f in env.was
  {
    var v := env.was[env.visits[i].f];
    BadSuffix(v.name) || ClonePanics(env.kinds, Overloads(env, i), v)
  }

  /** What a clone looks like. */
  ghost predicate IsCloneOf(kinds: map<string, Target>, v: FuncValue, o: Overload, c: FuncValue) {
    && o.target.typ in kinds
    && if kinds[o.target.typ].OfType? then !NoFirst(v) && c == MethodClone(o.target.name, v)
         else c == FuncClone(o.target.name, v)
  }

  // ------------------------------------------------------------------- state

  datatype Extra = Extra(target: Target, funcs: seq<Func>, methods: seq<Func>)

  function Picked(made: seq<Made>, typ: string): seq<Func> {
    if made == [] then []
    else
      var m := made[|made| - 1];
      Picked(made[..|made| - 1], typ) + if m.pair.overload.target.typ == typ then [m.clone] else []
  }

  function Pairs(made: seq<Made>): (r: seq<Pair>)
    ensures |r| == |made| && forall i :: 0 <= i < |made| ==> r[i] == made[i].pair
  {
    seq(|made|, i requires 0 <= i < |made| => made[i].pair)
  }

  ghost function VisitObjects(visits: seq<Visit>): set<object> {
    (set i | 0 <= i < |visits| :: visits[i].f as object)
      + (set i | 0 <= i < |visits| :: visits[i].f.decl.ident as object)
  }

  ghost function CloneObjects(made: seq<Made>): set<object> {
    (set i | 0 <= i < |made| :: made[i].clone as object)
      + (set i | 0 <= i < |made| :: made[i].clone.decl.ident as object)
  }

  /** The originals: the first `k` are renamed, the others are as they were. */
  ghost predicate OriginalsFit(env: Env, k: nat)
    requires EnvOk(env)
    reads VisitObjects(env.visits)
  {
    forall i :: 0 <= i < |env.visits| ==>
      var f := env.visits[i].f;
      f as object in VisitObjects(env.visits) && f.decl.ident as object in VisitObjects(env.visits)
      && ValueOf(f) == if i < k then Renamed(env.was[f]) else env.was[f]
  }

  /** The clones: each is what its overload asks for. */
  ghost predicate ClonesFit(env: Env, made: seq<Made>)
    reads CloneObjects(made)
  {
    && (forall i, j :: 0 <= i < j < |made| ==> made[i].clone != made[j].clone)
    && forall i :: 0 <= i < |made| ==>
      var m := made[i];
      m.clone as object in CloneObjects(made) && m.clone.decl.ident as object in CloneObjects(made)
      && m.pair.src in env.was && IsCloneOf(env.kinds, env.was[m.pair.src], m.pair.overload, ValueOf(m.clone))
  }

  class Context {
    const table: map<Mthd, seq<Overload>>
    var typs: map<string, Extra>
    var orders: map<Func, nat>

    constructor (table: map<Mthd, seq<Overload>>, typs: map<string, Extra>)
      ensures this.table == table && this.typs == typs && orders == map[]
    {
      this.table, this.typs, orders := table, typs, map[];
    }
  }

  /** The clones of each target, in the order in which they were made. */
  ghost predicate ExtrasFit(kinds: map<string, Target>, typs: map<string, Extra>, made: seq<Made>) {
    && typs.Keys == kinds.Keys
    && forall t :: t in kinds ==> typs[t] == if kinds[t].Global? then Extra(Global, Picked(made, t), [])
         else Extra(kinds[t], [], Picked(made, t))
  }

  ghost predicate OrdersFit(env: Env, orders: map<Func, nat>, k: nat, made: seq<Made>)
    requires EnvOk(env)
  {
    && (forall i :: 0 <= i < |made| ==> made[i].clone in orders && orders[made[i].clone] == made[i].pair.overload.idx)
    && (forall i :: 0 <= i < |env.visits| ==>
      var f := env.visits[i].f;
      var name := env.was[f].name;
      if i < k && IsOverload(name)
        then f in orders && ValidIndex(name[|name| - 1]) && orders[f] == ToIndex(name[|name| - 1]) else f !in orders)
  }

  ghost predicate Going(env: Env, c: Context, k: nat, made: seq<Made>)
    reads c, VisitObjects(env.visits), CloneObjects(made)
  {
    && EnvOk(env) && TableFor(c.table, env.entries)
    && ExtrasFit(env.kinds, c.typs, made) && OrdersFit(env, c.orders, k, made)
    && OriginalsFit(env, k) && ClonesFit(env, made)
    && CloneObjects(made) !! VisitObjects(env.visits)
    && c !in CloneObjects(made) && c !in VisitObjects(env.visits)
  }

  lemma PickedMore(made: seq<Made>, m: Made, t: string)
    ensures Picked(made + [m], t) == Picked(made, t) + if m.pair.overload.target.typ == t then [m.clone] else []
  {
    assert (made + [m])[..|made|] == made;
  }

  lemma ExtrasMore(kinds: map<string, Target>, typs: map<string, Extra>, made: seq<Made>, m: Made)
    requires ExtrasFit(kinds, typs, made) && m.pair.overload.target.typ in kinds
    ensures var t := m.pair.overload.target.typ;
      var ex := if kinds[t].OfType? then typs[t].(methods := typs[t].methods + [m.clone])
        else typs[t].(funcs := typs[t].funcs + [m.clone]);
      ExtrasFit(kinds, typs[t := ex], made + [m])
  {
    hide Picked;
    forall t
      ensures Picked(made + [m], t) == Picked(made, t) + if m.pair.overload.target.typ == t then [m.clone] else []
    {
      PickedMore(made, m, t);
    }
  }

  lemma CloneObjectsMore(made: seq<Made>, m: Made)
    ensures CloneObjects(made + [m]) == CloneObjects(made) + {m.clone, m.clone.decl.ident}
  {
    var all := made + [m];
    assert all[|made|] == m;
    assert forall i :: 0 <= i < |made| ==> all[i] == made[i];
  }

  lemma ClonesMore(env: Env, made: seq<Made>, m: Made)
    requires ClonesFit(env, made) && m.clone !in CloneObjects(made)
    requires m.pair.src in env.was && IsCloneOf(env.kinds, env.was[m.pair.src], m.pair.overload, ValueOf(m.clone))
    ensures ClonesFit(env, made + [m])
  {
    hide IsCloneOf, ValueOf;
    CloneObjectsMore(made, m);
    var all := made + [m];
    assert all[|made|] == m;
    assert forall i :: 0 <= i < |made| ==> all[i] == made[i];
  }

  lemma OrdersMore(env: Env, orders: map<Func, nat>, k: nat, made: seq<Made>, m: Made)
    requires EnvOk(env) && OrdersFit(env, orders, k, made) && m.clone !in CloneObjects(made)
    requires m.clone !in VisitObjects(env.visits)
    ensures OrdersFit(env, orders[m.clone := m.pair.overload.idx], k, made + [m])
  {
    assert forall i :: 0 <= i < |made| ==> made[i].clone as object in CloneObjects(made);
    assert forall i :: 0 <= i < |env.visits| ==> env.visits[i].f as object in VisitObjects(env.visits);
  }

  /** A new clone, apart from all objects there were. */
  method MakeClone(o: Overload, target: Target, f: Func, ghost kinds: map<string, Target>, ghost others: set<object>)
    returns (g: Func)
    requires o.target.typ in kinds && kinds[o.target.typ] == target && (target.OfType? ==> !NoFirst(ValueOf(f)))
    ensures fresh(g) && fresh(g.decl.ident) && g !in others && g.decl.ident !in others
    ensures IsCloneOf(kinds, old(ValueOf(f)), o, ValueOf(g))
  {
    if target.OfType? {
      g := NewMethod(o.target.name, f);
    } else {
      g := NewFunc(o.target.name, f);
    }
  }

  lemma DueOne(kinds: map<string, Target>, o: Overload, f: Func, v: FuncValue)
    ensures Due(kinds, [o], f) == if o.target.typ in kinds then [Pair(o, f)] else []
    ensures ClonePanics(kinds, [o], v) <==> NoFirst(v) && o.target.typ in kinds && kinds[o.target.typ].OfType?
  {
    assert [o][..0] == [];
  }

  lemma PairsMore(made: seq<Made>, m: Made)
    ensures Pairs(made + [m]) == Pairs(made) + [m.pair]
  {
  }

  /** Adds a clone to the list of its target and notes its order. */
  method Record(c: Context, o: Overload, f: Func, g: Func, ghost env: Env, ghost k: nat, ghost made: seq<Made>)
    requires Going(env, c, k, made) && f in env.was && o.target.typ in env.kinds
    requires IsCloneOf(env.kinds, env.was[f], o, ValueOf(g))
    requires g !in VisitObjects(env.visits) + CloneObjects(made) && g.decl.ident !in VisitObjects(env.visits)
    requires c as object != g && c as object != g.decl.ident
    modifies c
    ensures Going(env, c, k, made + [Made(Pair(o, f), g)])
  {
    hide Renamed, OriginalsFit, ClonesFit, OrdersFit, Picked, TableFor, IsCloneOf, VisitObjects, CloneObjects, Lookup,
         ValueOf;
    ghost var m := Made(Pair(o, f), g);
    ExtrasMore(env.kinds, c.typs, made, m);
    OrdersMore(env, c.orders, k, made, m);
    CloneObjectsMore(made, m);
    ClonesMore(env, made, m);
    var t := o.target.typ;
    var ex := c.typs[t];
    c.typs := c.typs[t := if ex.target.OfType? then ex.(methods := ex.methods + [g]) else ex.(funcs := ex.funcs + [g])];
    c.orders := c.orders[g := o.idx];
  }

  /** `buildFunc`: the clone for one overload, if its target exists. */
  method BuildFunc(c: Context, o: Overload, f: Func, ghost env: Env, ghost k: nat, ghost made: seq<Made>)
    returns (panicked: bool, ghost made': seq<Made>)
    requires Going(env, c, k, made) && f in env.was && ValueOf(f) == env.was[f]
    modifies c
    ensures panicked == ClonePanics(env.kinds, [o], env.was[f])
    ensures !panicked ==> Going(env, c, k, made') && Pairs(made') == Pairs(made) + Due(env.kinds, [o], f)
  {
    hide Going, ValueOf, IsCloneOf, NoFirst, Due, ClonePanics, Pairs;
    made' := made;
    panicked := false;
    DueOne(env.kinds, o, f, env.was[f]);
    TargetsAre(env, c, k, made);
    var t := o.target.typ;
    if t in c.typs {
      var target := c.typs[t].target;
      if target.OfType? && NoFirst(ValueOf(f)) {
        return true, made;
      }
      var g := MakeClone(o, target, f, env.kinds, VisitObjects(env.visits) + CloneObjects(made) + {c});
      Record(c, o, f, g, env, k, made);
      ghost var m := Made(Pair(o, f), g);
      CloneObjectsMore(made, m);
      PairsMore(made, m);
      made' := made + [m];
    }
  }

  lemma TargetsAre(env: Env, c: Context, k: nat, made: seq<Made>)
    requires Going(env, c, k, made)
    ensures c.typs.Keys == env.kinds.Keys && forall t :: t in env.kinds ==> c.typs[t].target == env.kinds[t]
  {
    hide Picked, OriginalsFit, ClonesFit, OrdersFit, VisitObjects, CloneObjects;
  }

  lemma DueMore(kinds: map<string, Target>, os: seq<Overload>, j: nat, f: Func, v: FuncValue)
    requires j < |os|
    ensures Due(kinds, os[..j + 1], f) == Due(kinds, os[..j], f) + Due(kinds, [os[j]], f)
    ensures ClonePanics(kinds, os[..j + 1], v) <==> ClonePanics(kinds, os[..j], v) || ClonePanics(kinds, [os[j]], v)
    ensures ClonePanics(kinds, os[..j + 1], v) ==> ClonePanics(kinds, os, v)
  {
    hide NoFirst;
    DueOne(kinds, os[j], f, v);
    var all := os[..j + 1];
    assert all[..j] == os[..j] && all[j] == os[j];
    assert forall i :: 0 <= i < j ==> all[i] == os[..j][i];
    assert forall i :: 0 <= i <= j ==> all[i] == os[i];
  }

  lemma DueNone(kinds: map<string, Target>, os: seq<Overload>, f: Func, v: FuncValue)
    ensures Due(kinds, os[..0], f) == [] && !ClonePanics(kinds, os[..0], v)
  {
  }

  lemma OriginalAt(env: Env, c: Context, k: nat, made: seq<Made>, i: nat)
    requires Going(env, c, k, made) && i < |env.visits|
    ensures var f := env.visits[i].f;
      && f in env.was && ValueOf(f) == (if i < k then Renamed(env.was[f]) else env.was[f])
      && f !in CloneObjects(made) && f.decl.ident !in CloneObjects(made) && c as object != f
           && c as object != f.decl.ident
  {
    hide ValueOf, Renamed, ClonesFit, ExtrasFit, OrdersFit, CloneObjects, TableFor;
    var f := env.visits[i].f;
    assert f as object in VisitObjects(env.visits) && f.decl.ident as object in VisitObjects(env.visits);
  }

  /** The second half of `transformFunc`: cutting off an overload suffix, in place. */
  method Rename(c: Context, f: Func, ghost env: Env, ghost k: nat, ghost made: seq<Made>) returns (panicked: bool)
    requires Going(env, c, k, made) && k < |env.visits| && env.visits[k].f == f
    modifies c, f, f.decl.ident
    ensures panicked == BadSuffix(env.was[f].name)
    ensures !panicked ==> Going(env, c, k + 1, made)
  {
    hide ClonesFit, ExtrasFit, OrdersFit, OriginalsFit, TableFor, VisitObjects, ValueOf, Renamed;
    OriginalAt(env, c, k, made, k);
    NameIs(f);
    OrdersRename(env, c.orders, k, made);
    if IsOverload(f.name) {
      var last := f.name[|f.name| - 1];
      if !ValidIndex(last) {
        return true;
      }
      c.orders := c.orders[f := ToIndex(last)];
      SetName(f, f.name[..|f.name| - 3], env, k);
    } else {
      OriginalsSame(env, k);
    }
    panicked := false;
  }

  lemma NameIs(f: Func)
    ensures ValueOf(f).name == f.name
  {
  }

  lemma OrdersRename(env: Env, orders: map<Func, nat>, k: nat, made: seq<Made>)
    requires EnvOk(env) && OrdersFit(env, orders, k, made) && k < |env.visits|
    requires CloneObjects(made) !! VisitObjects(env.visits)
    ensures var f := env.visits[k].f;
      var name := env.was[f].name;
      if !IsOverload(name) then OrdersFit(env, orders, k + 1, made)
      else ValidIndex(name[|name| - 1]) ==> OrdersFit(env, orders[f := ToIndex(name[|name| - 1])], k + 1, made)
  {
    var f := env.visits[k].f;
    assert f as object in VisitObjects(env.visits);
    assert forall i :: 0 <= i < |made| ==> made[i].clone as object in CloneObjects(made);
    assert forall i :: 0 <= i < |made| ==> made[i].clone != f;
  }

  lemma OriginalsSame(env: Env, k: nat)
    requires EnvOk(env) && OriginalsFit(env, k) && k < |env.visits| && !IsOverload(env.was[env.visits[k].f].name)
    ensures OriginalsFit(env, k + 1)
  {
    hide ValueOf, VisitObjects;
  }

  /** Gives the function at `k` its base name, in the documentation and in the declaration. */
  method SetName(f: Func, base: string, ghost env: Env, ghost k: nat)
    requires EnvOk(env) && OriginalsFit(env, k) && k < |env.visits| && env.visits[k].f == f
    requires IsOverload(env.was[f].name) && base == BaseName(env.was[f].name)
    modifies f, f.decl.ident
    ensures OriginalsFit(env, k + 1)
  {
    hide IsOverload, BaseName;
    f.name := base;
    f.decl.ident.name := f.name;
  }

  /** The first half of `transformFunc`: a clone for every overload. */
  method BuildFuncs(c: Context, f: Func, os: seq<Overload>, ghost env: Env, ghost k: nat, ghost made: seq<Made>)
    returns (panicked: bool, ghost made': seq<Made>)
    requires Going(env, c, k, made) && k < |env.visits| && env.visits[k].f == f
    modifies c
    ensures panicked == ClonePanics(env.kinds, os, env.was[f])
    ensures !panicked ==> Going(env, c, k, made') && Pairs(made') == Pairs(made) + Due(env.kinds, os, f)
  {
    hide Going, ValueOf, Due, ClonePanics, CloneObjects;
    made' := made;
    OriginalAt(env, c, k, made, k);
    ghost var v := env.was[f];
    DueNone(env.kinds, os, f, v);
    assert Pairs(made) + [] == Pairs(made);
    for j := 0 to |os|
      invariant Going(env, c, k, made') && Pairs(made') == Pairs(made) + Due(env.kinds, os[..j], f)
      invariant !ClonePanics(env.kinds, os[..j], v)
    {
      OriginalAt(env, c, k, made', k);
      DueMore(env.kinds, os, j, f, v);
      panicked, made' := BuildFunc(c, os[j], f, env, k, made');
      if panicked {
        return;
      }
    }
    assert os[..|os|] == os;
    panicked := false;
  }

  lemma TableGives(env: Env, c: Context, k: nat, made: seq<Made>)
    requires Going(env, c, k, made) && k < |env.visits|
    ensures var key := Mthd(env.visits[k].typ, env.visits[k].f.name);
      Overloads(env, k) == if key in c.table then c.table[key] else []
  {
    hide ExtrasFit, OrdersFit, ClonesFit, Lookup, ValueOf, Renamed;
    OriginalAt(env, c, k, made, k);
    NameIs(env.visits[k].f);
  }

  /** `transformFunc`. */
  method TransformFunc(c: Context, f: Func, typ: string, ghost env: Env, ghost k: nat, ghost made: seq<Made>)
    returns (panicked: bool, ghost made': seq<Made>)
    requires Going(env, c, k, made) && k < |env.visits| && env.visits[k] == Visit(f, typ)
    requires Pairs(made) == Expected(env, k)
    modifies c, f, f.decl.ident
    ensures panicked == VisitPanics(env, k)
    ensures !panicked ==> Going(env, c, k + 1, made') && Pairs(made') == Expected(env, k + 1)
  {
    hide Going, ValueOf, Due, ClonePanics, CloneObjects, Overloads, BadSuffix;
    OriginalAt(env, c, k, made, k);
    TableGives(env, c, k, made);
    var key := Mthd(typ, f.name);
    made' := made;
    if key in c.table {
      panicked, made' := BuildFuncs(c, f, c.table[key], env, k, made);
      if panicked {
        return;
      }
    } else {
      NothingDue(env.kinds, f, env.was[f]);
    }
    panicked := Rename(c, f, env, k, made');
  }

  lemma NothingDue(kinds: map<string, Target>, f: Func, v: FuncValue)
    ensures Due(kinds, [], f) == [] && !ClonePanics(kinds, [], v)
  {
  }

  function VisitsOf(list: seq<Func>, typ: string): (r: seq<Visit>)
    ensures |r| == |list| && forall i :: 0 <= i < |list| ==> r[i] == Visit(list[i], typ)
  {
    seq(|list|, i requires 0 <= i < |list| => Visit(list[i], typ))
  }

  ghost predicate AnyVisitPanics(env: Env, from: nat, to: nat)
    requires EnvOk(env) && to <= |env.visits|
  {
    exists i :: from <= i < to && VisitPanics(env, i)
  }

  /** `transformFuncs`. */
  method TransformFuncs(c: Context, list: seq<Func>, typ: string, ghost env: Env, ghost k: nat, ghost made: seq<Made>)
    returns (panicked: bool, ghost made': seq<Made>)
    requires Going(env, c, k, made) && k + |list| <= |env.visits| && env.visits[k..k + |list|] == VisitsOf(list, typ)
    requires Pairs(made) == Expected(env, k)
    modifies c, VisitObjects(env.visits)
    ensures panicked == AnyVisitPanics(env, k, k + |list|)
    ensures !panicked ==> Going(env, c, k + |list|, made') && Pairs(made') == Expected(env, k + |list|)
  {
    hide Going, Expected, VisitPanics, CloneObjects, VisitObjects, Pairs, VisitsOf, EnvOk;
    GoingEnv(env, c, k, made);
    made' := made;
    for j := 0 to |list|
      invariant Going(env, c, k + j, made') && Pairs(made') == Expected(env, k + j) && !AnyVisitPanics(env, k, k + j)
    {
      assert env.visits[k + j] == env.visits[k..k + |list|][j] == Visit(list[j], typ);
      Visited(env.visits, k + j);
      panicked, made' := TransformFunc(c, list[j], typ, env, k + j, made');
      if panicked {
        return;
      }
    }
    panicked := false;
  }

  lemma Visited(visits: seq<Visit>, i: nat)
    requires i < |visits|
    ensures visits[i].f in VisitObjects(visits) && visits[i].f.decl.ident in VisitObjects(visits)
  {
    assert visits[i].f as object in VisitObjects(visits) && visits[i].f.decl.ident as object in VisitObjects(visits);
  }

  lemma GoingEnv(env: Env, c: Context, k: nat, made: seq<Made>)
    requires Going(env, c, k, made)
    ensures EnvOk(env)
  {
  }
}
