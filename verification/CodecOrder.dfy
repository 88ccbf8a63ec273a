/** The order in which `range` meets the entries of a map is not for a caller to choose. When a
    round trip succeeds whatever the order (internal/godoc/encode_ast.gen.go). */
module CodecOrder {
  import opened Basics
  import opened CodecBytes
  import opened CodecGraph
  import opened CodecDecode
  import opened CodecRoundTrip
  import opened CodecClosed
  import opened CodecFaithful
  import opened CodecStream

  // ---------------------------------------------------------------- reordering

  /** The same Go value with the entries of its maps in any order, at every depth. */
  ghost predicate Reorders(v: Value, v': Value)
    decreases v
  {
    match v
    case Any(t, w) => v'.Any? && v'.t == t && Reorders(w, v'.v)
    case List(es) => v'.List? && AllReorder(es, v'.elems)
    case Map(ks, vs) => v'.Map? && |ks| == |vs| && EntriesReorder(ks, vs, v'.keys, v'.vals)
    case _ => v' == v
  }

  ghost predicate AllReorder(vs: seq<Value>, vs': seq<Value>)
    decreases vs, 0
  {
    |vs'| == |vs| && forall i :: 0 <= i < |vs| ==> Reorders(vs[i], vs'[i])
  }

  ghost predicate EntriesReorder(ks: seq<Bytes>, vs: seq<Value>, ks': seq<Bytes>, vs': seq<Value>)
    requires |ks| == |vs|
    decreases vs, 1
  {
    && |ks'| == |vs'| == |vs| && NoDup(ks')
    && (forall i :: 0 <= i < |vs'| ==> ComesFrom(ks, vs, ks'[i], vs'[i]))
    && (forall j :: 0 <= j < |vs| ==> GoesTo(vs, j, ks[j], ks', vs'))
  }

  ghost predicate ComesFrom(ks: seq<Bytes>, vs: seq<Value>, k: Bytes, v: Value)
    requires |ks| == |vs|
    decreases vs, 0
  {
    exists j :: 0 <= j < |vs| && ks[j] == k && Reorders(vs[j], v)
  }

  ghost predicate GoesTo(vs: seq<Value>, j: nat, k: Bytes, ks': seq<Bytes>, vs': seq<Value>)
    requires j < |vs| && |ks'| == |vs'|
    decreases vs, 0
  {
    exists i :: 0 <= i < |vs'| && ks'[i] == k && Reorders(vs[j], vs'[i])
  }

  /** Where entry `i` of the reordered map comes from. */
  lemma Source(ks: seq<Bytes>, vs: seq<Value>, ks': seq<Bytes>, vs': seq<Value>, i: nat) returns (j: nat)
    requires |ks| == |vs| && EntriesReorder(ks, vs, ks', vs') && i < |vs'|
    ensures |ks'| == |vs'| && j < |vs| && ks[j] == ks'[i] && Reorders(vs[j], vs'[i])
  {
    hide Reorders, NoDup;
    assert ComesFrom(ks, vs, ks'[i], vs'[i]);
    j :| 0 <= j < |vs| && ks[j] == ks'[i] && Reorders(vs[j], vs'[i]);
  }

  /** Where entry `j` of the map goes. */
  lemma Goal(ks: seq<Bytes>, vs: seq<Value>, ks': seq<Bytes>, vs': seq<Value>, j: nat) returns (i: nat)
    requires |ks| == |vs| && EntriesReorder(ks, vs, ks', vs') && j < |vs|
    ensures |ks'| == |vs'| && i < |vs'| && ks[j] == ks'[i] && Reorders(vs[j], vs'[i])
  {
    hide Reorders, NoDup;
    assert GoesTo(vs, j, ks[j], ks', vs');
    i :| 0 <= i < |vs'| && ks[j] == ks'[i] && Reorders(vs[j], vs'[i]);
  }

  lemma SameSize(ks: seq<Bytes>, vs: seq<Value>, ks': seq<Bytes>, vs': seq<Value>)
    requires |ks| == |vs| && EntriesReorder(ks, vs, ks', vs')
    ensures |ks'| == |vs'| == |vs| && NoDup(ks')
  {
    hide Reorders, NoDup;
  }

  ghost predicate HeapReorders(heap: Heap, heap': Heap) {
    heap'.Keys == heap.Keys
    && forall id :: id in heap ==> heap'[id].name == heap[id].name && AllReorder(heap[id].fields, heap'[id].fields)
  }

  lemma ReorderKind(v: Value, v': Value)
    requires Reorders(v, v')
    ensures (v.Nil? <==> v'.Nil?) && (IsZero(v) <==> IsZero(v')) && (v.Any? <==> v'.Any?)
  {
    hide AllReorder, EntriesReorder;
  }

  lemma {:induction false} ReorderCovered(v: Value, v': Value, seen: seq<Id>)
    requires Reorders(v, v')
    ensures Covered(v, seen) <==> Covered(v', seen)
    decreases v, 1
  {
    hide AllReorder, EntriesReorder, AllCovered;
    match v
    case Any(_, w) => ReorderCovered(w, v'.v, seen);
    case List(es) => ReorderAllCovered(es, v'.elems, seen);
    case Map(ks, vs) => ReorderMapCovered(ks, vs, v'.keys, v'.vals, seen);
    case _ =>
  }

  lemma {:induction false} ReorderAllCovered(vs: seq<Value>, vs': seq<Value>, seen: seq<Id>)
    requires AllReorder(vs, vs')
    ensures AllCovered(vs, 0, seen) <==> AllCovered(vs', 0, seen)
    decreases vs, 0
  {
    hide Covered, Reorders;
    forall i | 0 <= i < |vs|
      ensures Covered(vs[i], seen) <==> Covered(vs'[i], seen)
    {
      ReorderCovered(vs[i], vs'[i], seen);
    }
  }

  lemma {:induction false} ReorderMapCovered(ks: seq<Bytes>, vs: seq<Value>, ks': seq<Bytes>, vs': seq<Value>,
                                             seen: seq<Id>)
    requires |ks| == |vs| && EntriesReorder(ks, vs, ks', vs')
    ensures AllCovered(vs, 0, seen) <==> AllCovered(vs', 0, seen)
    decreases vs, 0
  {
    hide Covered, Reorders, EntriesReorder;
    if AllCovered(vs, 0, seen) {
      forall i | 0 <= i < |vs'|
        ensures Covered(vs'[i], seen)
      {
        var j := Source(ks, vs, ks', vs', i);
        ReorderCovered(vs[j], vs'[i], seen);
      }
    }
    if AllCovered(vs', 0, seen) {
      forall j | 0 <= j < |vs|
        ensures Covered(vs[j], seen)
      {
        var i := Goal(ks, vs, ks', vs', j);
        ReorderCovered(vs[j], vs'[i], seen);
      }
    }
  }

  lemma ReorderClosed(heap: Heap, heap': Heap, roots: seq<Value>, roots': seq<Value>, s: seq<Id>)
    requires HeapReorders(heap, heap') && AllReorder(roots, roots')
    ensures ClosedUnder(heap, roots, s) <==> ClosedUnder(heap', roots', s)
  {
    hide AllReorder, AllCovered;
    ReorderAllCovered(roots, roots', s);
    forall j | 0 <= j < |s| && s[j] in heap
      ensures AllCovered(heap[s[j]].fields, 0, s) <==> AllCovered(heap'[s[j]].fields, 0, s)
    {
      ReorderAllCovered(heap[s[j]].fields, heap'[s[j]].fields, s);
    }
  }

  /** What can be reached does not depend on the order. */
  lemma ReorderReachable(heap: Heap, heap': Heap, roots: seq<Value>, roots': seq<Value>, id: Id)
    requires HeapReorders(heap, heap') && AllReorder(roots, roots')
    ensures Reachable(heap, roots, id) <==> Reachable(heap', roots', id)
  {
    hide ClosedUnder, HeapReorders, AllReorder;
    forall s
      ensures ClosedUnder(heap, roots, s) <==> ClosedUnder(heap', roots', s)
    {
      ReorderClosed(heap, heap', roots, roots', s);
    }
  }

  // -------------------------------------------------------------------- types

  lemma {:induction false} ReorderTyped(c: Schema, heap: Heap, heap': Heap, ty: Ty, v: Value, v': Value)
    requires heap'.Keys == heap.Keys && forall id :: id in heap ==> heap'[id].name == heap[id].name
    requires Reorders(v, v') && HasType(c, heap, ty, v)
    ensures HasType(c, heap', ty, v')
    decreases v, 1
  {
    hide AllHaveType, NoDup, ShortKeys, AllReorder, EntriesReorder;
    match v
    case Any(t, w) => ReorderTyped(c, heap, heap', t, w, v'.v);
    case List(es) => ReorderAllTyped(c, heap, heap', ty.elem, es, v'.elems);
    case Map(ks, vs) => ReorderMapTyped(c, heap, heap', ty.elem, ks, vs, v'.keys, v'.vals);
    case _ =>
  }

  lemma {:induction false} ReorderAllTyped(c: Schema, heap: Heap, heap': Heap, ty: Ty, vs: seq<Value>, vs': seq<Value>)
    requires heap'.Keys == heap.Keys && forall id :: id in heap ==> heap'[id].name == heap[id].name
    requires AllReorder(vs, vs') && AllHaveType(c, heap, ty, vs)
    ensures |vs'| == |vs| && AllHaveType(c, heap', ty, vs')
    decreases vs, 0
  {
    hide HasType, Reorders;
    forall i | 0 <= i < |vs'|
      ensures HasType(c, heap', ty, vs'[i])
    {
      ReorderTyped(c, heap, heap', ty, vs[i], vs'[i]);
    }
  }

  lemma {:induction false} ReorderMapTyped(c: Schema, heap: Heap, heap': Heap, ty: Ty, ks: seq<Bytes>, vs: seq<Value>,
                                           ks': seq<Bytes>, vs': seq<Value>)
    requires heap'.Keys == heap.Keys && forall id :: id in heap ==> heap'[id].name == heap[id].name
    requires |ks| == |vs| && EntriesReorder(ks, vs, ks', vs') && AllHaveType(c, heap, ty, vs) && ShortKeys(ks)
    ensures |ks'| == |vs'| == |ks| && NoDup(ks') && ShortKeys(ks') && AllHaveType(c, heap', ty, vs')
    decreases vs, 0
  {
    hide HasType, Reorders, NoDup, EntriesReorder;
    SameSize(ks, vs, ks', vs');
    forall i | 0 <= i < |vs'|
      ensures HasType(c, heap', ty, vs'[i]) && |ks'[i]| < TWO_63
    {
      var j := Source(ks, vs, ks', vs', i);
      ReorderTyped(c, heap, heap', ty, vs[j], vs'[i]);
    }
  }

  lemma ReorderWellTyped(c: Schema, heap: Heap, heap': Heap, roots: seq<Value>, roots': seq<Value>)
    requires HeapReorders(heap, heap') && AllReorder(roots, roots')
    requires WellTyped(c, heap) && AllHaveType(c, heap, TAny, roots)
    ensures WellTyped(c, heap') && AllHaveType(c, heap', TAny, roots')
  {
    hide AllReorder, HasType, AllHaveType;
    ReorderAllTyped(c, heap, heap', TAny, roots, roots');
    assert |heap'| == |heap'.Keys| == |heap.Keys| == |heap|;
    forall id | id in heap'
      ensures StructHasType(c, heap', heap'[id])
    {
      assert StructHasType(c, heap, heap[id]);
      ReorderFieldsTyped(c, heap, heap', c.structs[heap[id].name], heap[id].fields, heap'[id].fields);
    }
  }

  lemma ReorderFieldsTyped(c: Schema, heap: Heap, heap': Heap, fts: seq<FieldTy>, fs: seq<Value>, fs': seq<Value>)
    requires heap'.Keys == heap.Keys && forall id :: id in heap ==> heap'[id].name == heap[id].name
    requires AllReorder(fs, fs') && FieldsHaveType(c, heap, fts, fs)
    ensures FieldsHaveType(c, heap', fts, fs')
  {
    hide HasType, Reorders;
    forall i | 0 <= i < |fs'|
      ensures FieldHasType(c, heap', fts[i], fs'[i])
    {
      assert FieldHasType(c, heap, fts[i], fs[i]);
      if fts[i].Retired? {
        ReorderKind(fs[i], fs'[i]);
      } else {
        ReorderTyped(c, heap, heap', fts[i].ty, fs[i], fs'[i]);
      }
    }
  }

  // ------------------------------------------------------------------- steady

  /** A map's values are not nil in part, unless they are plain interfaces. */
  predicate NoMix(ty: Ty, vs: seq<Value>) {
    ty.TAny? || (forall i :: 0 <= i < |vs| ==> vs[i].Nil?) || (forall i :: 0 <= i < |vs| ==> !vs[i].Nil?)
  }

  /** No nil interface inside a list, and no map with both nil and other values. */
  predicate SteadyValue(ty: Ty, v: Value)
    decreases v
  {
    match v
    case Nil => !ty.TIface?
    case Any(t, w) => SteadyValue(t, w)
    case List(es) => ty.TSlice? && AllSteady(ty.elem, es)
    case Map(_, vs) => ty.TMap? && AllSteady(ty.elem, vs) && NoMix(ty.elem, vs)
    case _ => true
  }

  predicate AllSteady(ty: Ty, vs: seq<Value>)
    decreases vs, 0
  {
    forall i :: 0 <= i < |vs| ==> SteadyValue(ty, vs[i])
  }

  predicate SteadyFields(fts: seq<FieldTy>, fs: seq<Value>) {
    forall i :: 0 <= i < |fs| && Kept(fts, i) && !IsZero(fs[i]) ==> SteadyValue(fts[i].ty, fs[i])
  }

  predicate SteadyStruct(c: Schema, x: Struct) {
    x.name < |c.structs| && !AllZero(x.fields, 0) && SteadyFields(c.structs[x.name], x.fields)
  }

  lemma {:induction false} SteadyReordered(ty: Ty, v: Value, v': Value)
    requires Reorders(v, v') && SteadyValue(ty, v)
    ensures GoodValue(ty, v')
    decreases v, 1
  {
    hide AllGood, AllSteady, AllReorder, EntriesReorder, NoMix, NilsFirst;
    match v
    case Any(t, w) => SteadyReordered(t, w, v'.v);
    case List(es) => AllSteadyReordered(ty.elem, es, v'.elems);
    case Map(ks, vs) => MapSteadyReordered(ty.elem, ks, vs, v'.keys, v'.vals);
    case _ =>
  }

  lemma {:induction false} AllSteadyReordered(ty: Ty, vs: seq<Value>, vs': seq<Value>)
    requires AllReorder(vs, vs') && AllSteady(ty, vs)
    ensures AllGood(ty, vs', 0)
    decreases vs, 0
  {
    hide GoodValue, SteadyValue, Reorders;
    forall i | 0 <= i < |vs'|
      ensures GoodValue(ty, vs'[i])
    {
      SteadyReordered(ty, vs[i], vs'[i]);
    }
  }

  lemma {:induction false} MapSteadyReordered(ty: Ty, ks: seq<Bytes>, vs: seq<Value>, ks': seq<Bytes>, vs': seq<Value>)
    requires |ks| == |vs| && EntriesReorder(ks, vs, ks', vs') && AllSteady(ty, vs) && NoMix(ty, vs)
    ensures AllGood(ty, vs', 0) && NilsFirst(ty, vs', 0)
    decreases vs, 0
  {
    hide GoodValue, SteadyValue, Reorders, EntriesReorder;
    var allNil, noneNil := forall i :: 0 <= i < |vs| ==> vs[i].Nil?, forall i :: 0 <= i < |vs| ==> !vs[i].Nil?;
    forall i | 0 <= i < |vs'|
      ensures GoodValue(ty, vs'[i]) && (allNil ==> vs'[i].Nil?) && (noneNil ==> !vs'[i].Nil?)
    {
      var j := Source(ks, vs, ks', vs', i);
      SteadyReordered(ty, vs[j], vs'[i]);
      ReorderKind(vs[j], vs'[i]);
    }
  }

  lemma StructSteadyReordered(c: Schema, x: Struct, x': Struct)
    requires x'.name == x.name && AllReorder(x.fields, x'.fields) && SteadyStruct(c, x)
    ensures GoodStruct(c, x')
  {
    hide GoodValue, SteadyValue, Reorders;
    var fts := c.structs[x.name];
    forall i | 0 <= i < |x.fields|
      ensures IsZero(x.fields[i]) <==> IsZero(x'.fields[i])
      ensures Kept(fts, i) && !IsZero(x'.fields[i]) ==> GoodValue(fts[i].ty, x'.fields[i])
    {
      ReorderKind(x.fields[i], x'.fields[i]);
      if Kept(fts, i) && !IsZero(x.fields[i]) {
        SteadyReordered(fts[i].ty, x.fields[i], x'.fields[i]);
      }
    }
  }

  // ---------------------------------------------------------------- backwards

  function Flip<T>(s: seq<T>): (r: seq<T>)
    ensures |r| == |s| && forall i :: 0 <= i < |s| ==> r[i] == s[|s| - 1 - i]
  {
    seq(|s|, i requires 0 <= i < |s| => s[|s| - 1 - i])
  }

  /** The value with the entries of all maps in the opposite order. */
  function Backwards(v: Value): Value
    decreases v, 1
  {
    match v
    case Any(t, w) => Any(t, Backwards(w))
    case List(es) => List(AllBackwards(es))
    case Map(ks, vs) => Map(Flip(ks), Flip(AllBackwards(vs)))
    case _ => v
  }

  function AllBackwards(vs: seq<Value>): (r: seq<Value>)
    ensures |r| == |vs| && forall i :: 0 <= i < |vs| ==> r[i] == Backwards(vs[i])
    decreases vs, 0
  {
    seq(|vs|, i requires 0 <= i < |vs| => Backwards(vs[i]))
  }

  function HeapBackwards(heap: Heap): Heap {
    map id | id in heap :: Struct(heap[id].name, AllBackwards(heap[id].fields))
  }

  lemma FlipNoDup(ks: seq<Bytes>)
    requires NoDup(ks)
    ensures NoDup(Flip(ks))
  {
  }

  lemma {:induction false} BackwardsReorders(c: Schema, heap: Heap, ty: Ty, v: Value)
    requires HasType(c, heap, ty, v)
    ensures Reorders(v, Backwards(v)) && Reorders(v, v)
    decreases v, 1
  {
    hide AllHaveType, NoDup, ShortKeys, AllReorder, EntriesReorder;
    match v
    case Any(t, w) => BackwardsReorders(c, heap, t, w);
    case List(es) => AllBackwardsReorders(c, heap, ty.elem, es);
    case Map(ks, vs) => MapBackwardsReorders(c, heap, ty.elem, ks, vs);
    case _ =>
  }

  lemma {:induction false} AllBackwardsReorders(c: Schema, heap: Heap, ty: Ty, vs: seq<Value>)
    requires AllHaveType(c, heap, ty, vs)
    ensures AllReorder(vs, AllBackwards(vs)) && AllReorder(vs, vs)
    decreases vs, 0
  {
    hide HasType, Reorders;
    forall i | 0 <= i < |vs|
      ensures Reorders(vs[i], Backwards(vs[i])) && Reorders(vs[i], vs[i])
    {
      BackwardsReorders(c, heap, ty, vs[i]);
    }
  }

  lemma {:induction false} MapBackwardsReorders(c: Schema, heap: Heap, ty: Ty, ks: seq<Bytes>, vs: seq<Value>)
    requires |ks| == |vs| && NoDup(ks) && AllHaveType(c, heap, ty, vs)
    ensures EntriesReorder(ks, vs, Flip(ks), Flip(AllBackwards(vs))) && EntriesReorder(ks, vs, ks, vs)
    decreases vs, 0
  {
    hide HasType, Reorders, NoDup;
    FlipNoDup(ks);
    var n, ks', vs' := |vs|, Flip(ks), Flip(AllBackwards(vs));
    forall j | 0 <= j < n
      ensures Reorders(vs[j], vs'[n - 1 - j]) && ks'[n - 1 - j] == ks[j]
      ensures GoesTo(vs, j, ks[j], ks', vs') && GoesTo(vs, j, ks[j], ks, vs) && ComesFrom(ks, vs, ks[j], vs[j])
    {
      BackwardsReorders(c, heap, ty, vs[j]);
      var i := n - 1 - j;
      assert ks'[i] == ks[j] && vs'[i] == Backwards(vs[j]);
    }
    forall i | 0 <= i < n
      ensures ComesFrom(ks, vs, ks'[i], vs'[i])
    {
      var j := n - 1 - i;
      assert Reorders(vs[j], vs'[n - 1 - j]);
    }
  }

  lemma HeapBackwardsReorders(c: Schema, heap: Heap)
    requires WellTyped(c, heap)
    ensures HeapReorders(heap, HeapBackwards(heap)) && HeapReorders(heap, heap)
  {
    hide AllReorder, HasType;
    forall id | id in heap
      ensures AllReorder(heap[id].fields, AllBackwards(heap[id].fields)) && AllReorder(heap[id].fields, heap[id].fields)
    {
      assert StructHasType(c, heap, heap[id]);
      FieldsBackwardsReorder(c, heap, c.structs[heap[id].name], heap[id].fields);
    }
  }

  lemma FieldsBackwardsReorder(c: Schema, heap: Heap, fts: seq<FieldTy>, fs: seq<Value>)
    requires FieldsHaveType(c, heap, fts, fs)
    ensures AllReorder(fs, AllBackwards(fs)) && AllReorder(fs, fs)
  {
    hide HasType;
    forall i | 0 <= i < |fs|
      ensures Reorders(fs[i], Backwards(fs[i])) && Reorders(fs[i], fs[i])
    {
      assert FieldHasType(c, heap, fts[i], fs[i]);
      if fts[i].Field? {
        BackwardsReorders(c, heap, fts[i].ty, fs[i]);
      }
    }
  }

  // --------------------------------------------- good both ways means steady

  /** Before a nil value all values are nil. */
  lemma {:induction false} NilPrefix(ty: Ty, vs: seq<Value>, i: nat, j: nat)
    requires NilsFirst(ty, vs, 0) && !ty.TAny? && i <= j < |vs| && vs[j].Nil?
    ensures vs[i].Nil?
    decreases j
  {
    if i < j {
      NilPrefix(ty, vs, i, j - 1);
    }
  }

  lemma NoMixBothWays(ty: Ty, vs: seq<Value>)
    requires NilsFirst(ty, vs, 0) && NilsFirst(ty, Flip(AllBackwards(vs)), 0)
    ensures NoMix(ty, vs)
  {
    hide NilsFirst, Flip, Backwards;
    if !ty.TAny? {
      forall i, j | 0 <= i < |vs| && 0 <= j < |vs|
        ensures vs[j].Nil? ==> vs[i].Nil?
      {
        NilBothWays(ty, vs, i, j);
      }
    }
  }

  lemma BackwardsNil(v: Value)
    ensures Backwards(v).Nil? <==> v.Nil?
  {
  }

  lemma NilBothWays(ty: Ty, vs: seq<Value>, i: nat, j: nat)
    requires NilsFirst(ty, vs, 0) && NilsFirst(ty, Flip(AllBackwards(vs)), 0) && !ty.TAny? && i < |vs| && j < |vs|
    ensures vs[j].Nil? ==> vs[i].Nil?
  {
    hide NilsFirst, Backwards;
    var n, vs' := |vs|, Flip(AllBackwards(vs));
    assert vs'[n - 1 - i] == Backwards(vs[i]) && vs'[n - 1 - j] == Backwards(vs[j]);
    BackwardsNil(vs[i]);
    BackwardsNil(vs[j]);
    if vs[j].Nil? {
      if i <= j {
        NilPrefix(ty, vs, i, j);
      } else {
        NilPrefix(ty, vs', n - 1 - i, n - 1 - j);
      }
    }
  }

  lemma {:induction false} SteadyBothWays(ty: Ty, v: Value)
    requires GoodValue(ty, v) && GoodValue(ty, Backwards(v))
    ensures SteadyValue(ty, v)
    decreases v, 1
  {
    hide AllGood, AllSteady, NoMix, NilsFirst;
    match v
    case Any(t, w) => SteadyBothWays(t, w);
    case List(es) => AllSteadyBothWays(ty.elem, es, AllBackwards(es));
    case Map(ks, vs) =>
      NoMixBothWays(ty.elem, vs);
      FlipGood(ty.elem, AllBackwards(vs));
      AllSteadyBothWays(ty.elem, vs, AllBackwards(vs));
    case _ =>
  }

  lemma FlipGood(ty: Ty, vs: seq<Value>)
    requires AllGood(ty, Flip(vs), 0)
    ensures AllGood(ty, vs, 0)
  {
    hide GoodValue;
    forall i | 0 <= i < |vs|
      ensures GoodValue(ty, vs[i])
    {
      assert Flip(vs)[|vs| - 1 - i] == vs[i];
    }
  }

  lemma {:induction false} AllSteadyBothWays(ty: Ty, vs: seq<Value>, vs': seq<Value>)
    requires vs' == AllBackwards(vs) && AllGood(ty, vs, 0) && AllGood(ty, vs', 0)
    ensures AllSteady(ty, vs)
    decreases vs, 0
  {
    hide GoodValue, SteadyValue;
    forall i | 0 <= i < |vs|
      ensures SteadyValue(ty, vs[i])
    {
      assert GoodValue(ty, vs'[i]);
      SteadyBothWays(ty, vs[i]);
    }
  }

  lemma StructSteadyBothWays(c: Schema, x: Struct)
    requires GoodStruct(c, x) && GoodStruct(c, Struct(x.name, AllBackwards(x.fields)))
    ensures SteadyStruct(c, x)
  {
    hide GoodValue, SteadyValue;
    var fts := c.structs[x.name];
    forall i | 0 <= i < |x.fields| && Kept(fts, i) && !IsZero(x.fields[i])
      ensures SteadyValue(fts[i].ty, x.fields[i])
    {
      assert !IsZero(AllBackwards(x.fields)[i]);
      SteadyBothWays(fts[i].ty, x.fields[i]);
    }
  }

  // ---------------------------------------------------------------- round trips

  ghost predicate RoundTrips(c: Schema, g: Registry, heap: Heap, roots: seq<Value>) {
    && WellTyped(c, heap) && AllHaveType(c, heap, TAny, roots) && ValidRegistry(c, g)
    && var seen := EncodeRoots(c, heap, roots).memo.seen;
       InHeap(heap, seen) && Copied(c, heap, roots, seen, DecodeStream(c, g, |roots|, EncodeStream(c, g, heap, roots)))
  }

  ghost predicate Good(c: Schema, heap: Heap, roots: seq<Value>) {
    AllGood(TAny, roots, 0) && forall id :: Reachable(heap, roots, id) ==> id in heap && GoodStruct(c, heap[id])
  }

  /** Nothing that can be reached is all zero, holds a nil interface inside a list, or is a map
      with both nil and other values. */
  ghost predicate Steady(c: Schema, heap: Heap, roots: seq<Value>) {
    AllSteady(TAny, roots) && forall id :: Reachable(heap, roots, id) ==> id in heap && SteadyStruct(c, heap[id])
  }

  lemma RoundTripsExactly(c: Schema, g: Registry, heap: Heap, roots: seq<Value>)
    requires WellTyped(c, heap) && AllHaveType(c, heap, TAny, roots) && ValidRegistry(c, g)
    ensures RoundTrips(c, g, heap, roots) <==> Good(c, heap, roots)
  {
    hide WellTyped, AllHaveType, ValidRegistry, EncodeRoots, EncodeStream, DecodeStream, Copied, AllGood, GoodStruct,
         Reachable, InHeap;
    StreamRoundTrip(c, g, heap, roots);
  }

  lemma SteadyIsGood(c: Schema, heap: Heap, roots: seq<Value>, heap': Heap, roots': seq<Value>)
    requires HeapReorders(heap, heap') && AllReorder(roots, roots') && Steady(c, heap, roots)
    ensures Good(c, heap', roots')
  {
    hide AllReorder, AllSteady, SteadyStruct, GoodStruct, Reachable, AllGood;
    AllSteadyReordered(TAny, roots, roots');
    forall id | Reachable(heap', roots', id)
      ensures id in heap' && GoodStruct(c, heap'[id])
    {
      ReorderReachable(heap, heap', roots, roots', id);
      StructSteadyReordered(c, heap[id], heap'[id]);
    }
  }

  lemma GoodBothWays(c: Schema, heap: Heap, roots: seq<Value>)
    requires HeapReorders(heap, HeapBackwards(heap)) && AllReorder(roots, AllBackwards(roots))
    requires Good(c, heap, roots) && Good(c, HeapBackwards(heap), AllBackwards(roots))
    ensures Steady(c, heap, roots)
  {
    hide AllReorder, AllSteady, SteadyStruct, GoodStruct, Reachable, AllGood;
    AllSteadyBothWays(TAny, roots, AllBackwards(roots));
    forall id | Reachable(heap, roots, id)
      ensures id in heap && SteadyStruct(c, heap[id])
    {
      ReorderReachable(heap, HeapBackwards(heap), roots, AllBackwards(roots), id);
      StructSteadyBothWays(c, heap[id]);
    }
  }

  /** The round trip succeeds for every order in which `range` may meet the entries of the maps,
      exactly when the graph is steady: which a caller can check before the call. */
  lemma EveryOrder(c: Schema, g: Registry, heap: Heap, roots: seq<Value>)
    requires WellTyped(c, heap) && AllHaveType(c, heap, TAny, roots) && ValidRegistry(c, g)
    ensures (forall heap', roots' :: HeapReorders(heap, heap') && AllReorder(roots, roots') ==>
      RoundTrips(c, g, heap', roots'))
      <==> Steady(c, heap, roots)
  {
    hide WellTyped, AllHaveType, ValidRegistry, HeapReorders, AllReorder, RoundTrips, Good, Steady, HeapBackwards;
    if Steady(c, heap, roots) {
      forall heap', roots' | HeapReorders(heap, heap') && AllReorder(roots, roots')
        ensures RoundTrips(c, g, heap', roots')
      {
        ReorderWellTyped(c, heap, heap', roots, roots');
        SteadyIsGood(c, heap, roots, heap', roots');
        RoundTripsExactly(c, g, heap', roots');
      }
    }
    HeapBackwardsReorders(c, heap);
    AllBackwardsReorders(c, heap, TAny, roots);
    ReorderWellTyped(c, heap, HeapBackwards(heap), roots, AllBackwards(roots));
    RoundTripsExactly(c, g, heap, roots);
    RoundTripsExactly(c, g, HeapBackwards(heap), AllBackwards(roots));
    if RoundTrips(c, g, heap, roots) && RoundTrips(c, g, HeapBackwards(heap), AllBackwards(roots)) {
      GoodBothWays(c, heap, roots);
    }
  }
}
