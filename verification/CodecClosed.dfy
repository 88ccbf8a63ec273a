/** Values with their pointers renamed, and why the structs that the encoder meets are closed
    under following pointers (internal/godoc/encode_ast.gen.go). */
module CodecClosed {
  import opened Basics
  import opened CodecBytes
  import opened CodecGraph
  import opened CodecRoundTrip

  /** `v` with each pointer replaced by the position of its target in `seen`. */
  function Rename(v: Value, seen: seq<Id>): Value
    decreases v
  {
    match v
    case Ptr(id) => Ptr(IndexOf(seen, id))
    case Any(t, w) => Any(t, Rename(w, seen))
    case List(es) => List(RenameFrom(es, 0, seen))
    case Map(ks, vs) => Map(ks, RenameFrom(vs, 0, seen))
    case _ => v
  }

  function RenameFrom(vs: seq<Value>, k: nat, seen: seq<Id>): (r: seq<Value>)
    requires k <= |vs|
    ensures |r| == |vs| - k && forall i :: 0 <= i < |r| ==> r[i] == Rename(vs[k + i], seen)
    decreases vs, |vs| - k
  {
    if k == |vs| then [] else [Rename(vs[k], seen)] + RenameFrom(vs, k + 1, seen)
  }

  // ------------------------------------------------------- what is met is closed

  /** Every pointer in `v` is in `seen`. */
  predicate Covered(v: Value, seen: seq<Id>)
    decreases v
  {
    match v
    case Ptr(id) => id in seen
    case Any(_, w) => Covered(w, seen)
    case List(es) => AllCovered(es, 0, seen)
    case Map(_, vs) => AllCovered(vs, 0, seen)
    case _ => true
  }

  predicate AllCovered(vs: seq<Value>, k: nat, seen: seq<Id>)
    decreases vs, 0
  {
    forall i :: k <= i < |vs| ==> Covered(vs[i], seen)
  }

  /** The structs met from position `k` on have all their pointers met. */
  predicate ClosedFrom(heap: Heap, seen: seq<Id>, k: nat) {
    forall j :: k <= j < |seen| ==> seen[j] in heap && AllCovered(heap[seen[j]].fields, 0, seen)
  }

  lemma {:induction false} CoveredGrows(v: Value, seen: seq<Id>, seen': seq<Id>)
    requires Covered(v, seen) && seen <= seen'
    ensures Covered(v, seen') && Rename(v, seen') == Rename(v, seen)
    decreases v, 1
  {
    match v
    case Ptr(id) => IndexOfGrows(seen, seen', id);
    case Any(_, w) => CoveredGrows(w, seen, seen');
    case List(es) => AllCoveredGrows(es, 0, seen, seen');
    case Map(_, vs) => AllCoveredGrows(vs, 0, seen, seen');
    case _ =>
  }

  lemma {:induction false} AllCoveredGrows(vs: seq<Value>, k: nat, seen: seq<Id>, seen': seq<Id>)
    requires k <= |vs| && AllCovered(vs, k, seen) && seen <= seen'
    ensures AllCovered(vs, k, seen') && RenameFrom(vs, k, seen') == RenameFrom(vs, k, seen)
    decreases vs, 0
  {
    forall i | k <= i < |vs|
      ensures Covered(vs[i], seen') && Rename(vs[i], seen') == Rename(vs[i], seen)
    {
      CoveredGrows(vs[i], seen, seen');
    }
  }

  lemma {:induction false} IndexOfGrows<T>(s: seq<T>, s': seq<T>, x: T)
    requires x in s && s <= s'
    ensures IndexOf(s', x) == IndexOf(s, x)
  {
    if s[0] != x {
      assert s[1..] <= s'[1..];
      IndexOfGrows(s[1..], s'[1..], x);
    }
  }

  lemma {:induction false} IndexOfAt<T>(s: seq<T>, i: nat)
    requires NoDup(s) && i < |s|
    ensures IndexOf(s, s[i]) == i
  {
    var j := IndexOf(s, s[i]);
    assert s[i] in s;
  }

  lemma ClosedGrows(heap: Heap, seen: seq<Id>, seen': seq<Id>, k: nat, l: nat)
    requires seen <= seen' && ClosedFrom(heap, seen, k) && ClosedFrom(heap, seen', l) && l <= |seen|
    ensures ClosedFrom(heap, seen', k)
  {
    forall j | k <= j < |seen'|
      ensures seen'[j] in heap && AllCovered(heap[seen'[j]].fields, 0, seen')
    {
      if j < |seen| {
        assert seen'[j] == seen[j];
        AllCoveredGrows(heap[seen[j]].fields, 0, seen, seen');
      }
    }
  }

  lemma {:induction false} Closed(c: Schema, heap: Heap, ty: Ty, v: Value, m: Memo)
    requires WellTyped(c, heap) && ValidMemo(c, heap, m) && HasType(c, heap, ty, v)
    ensures Covered(v, Encode(c, heap, ty, v, m).memo.seen)
    ensures ClosedFrom(heap, Encode(c, heap, ty, v, m).memo.seen, |m.seen|)
    decreases Unseen(heap, m.seen), v, 1
  {
    hide WellTyped, ValidMemo, Unseen, EncodePtr, EncodeList, EncodeEntries, AllHaveType, NoDup, ShortKeys, AllCovered;
    match v
    case Ptr(id) => ClosedPtr(c, heap, id, m);
    case Any(t, w) =>
      MemoTypeValid(c, heap, m, t);
      Closed(c, heap, t, w, MemoType(m, t));
    case List(es) => ClosedList(c, heap, ty.elem, es, 0, m);
    case Map(ks, vs) => ClosedEntries(c, heap, ty.elem, ks, vs, 0, m);
    case _ =>
  }

  lemma FirstMet(c: Schema, heap: Heap, m: Memo, id: Id, m': Memo)
    requires ValidMemo(c, heap, m') && Extends(Meet(m, id), m')
    ensures |m.seen| < |m'.seen| && m'.seen[|m.seen|] == id && IndexOf(m'.seen, id) == |m.seen|
    ensures forall j :: 0 <= j < |m'.seen| ==> m'.seen[j] in heap
  {
    assert Meet(m, id).seen[|m.seen|] == id;
    IndexOfAt(m'.seen, |m.seen|);
  }

  lemma {:induction false} ClosedPtr(c: Schema, heap: Heap, id: Id, m: Memo)
    requires WellTyped(c, heap) && ValidMemo(c, heap, m) && id in heap
    ensures id in EncodePtr(c, heap, id, m).memo.seen
    ensures ClosedFrom(heap, EncodePtr(c, heap, id, m).memo.seen, |m.seen|)
    decreases Unseen(heap, m.seen), Ptr(id), 0
  {
    hide ValidMemo, Unseen, EncodeFields, HasType;
    if id !in m.seen {
      MeetValid(c, heap, m, id);
      var x := heap[id];
      var r := EncodeFields(c, heap, c.structs[x.name], x.fields, 0, Meet(m, id));
      ClosedFields(c, heap, c.structs[x.name], x.fields, 0, Meet(m, id));
      FirstMet(c, heap, m, id, r.memo);
    }
  }

  lemma {:induction false} ClosedList(c: Schema, heap: Heap, ty: Ty, es: seq<Value>, k: nat, m: Memo)
    requires WellTyped(c, heap) && ValidMemo(c, heap, m) && AllHaveType(c, heap, ty, es) && k <= |es|
    ensures AllCovered(es, k, EncodeList(c, heap, ty, es, k, m).memo.seen)
    ensures ClosedFrom(heap, EncodeList(c, heap, ty, es, k, m).memo.seen, |m.seen|)
    decreases Unseen(heap, m.seen), es, |es| - k
  {
    hide WellTyped, ValidMemo, Unseen, Encode, HasType;
    if k < |es| {
      var a := Encode(c, heap, ty, es[k], m);
      UnseenShrinks(heap, m.seen, a.memo.seen);
      Closed(c, heap, ty, es[k], m);
      ClosedList(c, heap, ty, es, k + 1, a.memo);
      Combine(heap, es, k, a.memo.seen, EncodeList(c, heap, ty, es, k + 1, a.memo).memo.seen, |m.seen|);
    }
  }

  /** After element `k` is closed under `seen` and the rest under `seen'`, all is closed. */
  lemma Combine(heap: Heap, vs: seq<Value>, k: nat, seen: seq<Id>, seen': seq<Id>, n: nat)
    requires k < |vs| && seen <= seen' && Covered(vs[k], seen) && AllCovered(vs, k + 1, seen')
    requires ClosedFrom(heap, seen, n) && ClosedFrom(heap, seen', |seen|)
    ensures AllCovered(vs, k, seen') && ClosedFrom(heap, seen', n)
    ensures Rename(vs[k], seen') == Rename(vs[k], seen)
  {
    CoveredGrows(vs[k], seen, seen');
    ClosedGrows(heap, seen, seen', n, |seen|);
  }

  lemma {:induction false} ClosedEntries(c: Schema, heap: Heap, ty: Ty, ks: seq<Bytes>, vs: seq<Value>, k: nat, m: Memo)
    requires WellTyped(c, heap) && ValidMemo(c, heap, m) && AllHaveType(c, heap, ty, vs)
    requires |ks| == |vs| && ShortKeys(ks) && k <= |ks|
    ensures AllCovered(vs, k, EncodeEntries(c, heap, ty, ks, vs, k, m).memo.seen)
    ensures ClosedFrom(heap, EncodeEntries(c, heap, ty, ks, vs, k, m).memo.seen, |m.seen|)
    decreases Unseen(heap, m.seen), vs, |vs| - k
  {
    hide WellTyped, ValidMemo, Unseen, Encode, HasType, EncodeString, ShortKeys;
    if k < |ks| {
      var a := Encode(c, heap, ty, vs[k], m);
      UnseenShrinks(heap, m.seen, a.memo.seen);
      Closed(c, heap, ty, vs[k], m);
      ClosedEntries(c, heap, ty, ks, vs, k + 1, a.memo);
      Combine(heap, vs, k, a.memo.seen, EncodeEntries(c, heap, ty, ks, vs, k + 1, a.memo).memo.seen, |m.seen|);
    }
  }

  lemma {:induction false} ClosedFields(c: Schema, heap: Heap, fts: seq<FieldTy>, fs: seq<Value>, k: nat, m: Memo)
    requires WellTyped(c, heap) && ValidMemo(c, heap, m) && FieldsHaveType(c, heap, fts, fs)
    requires k <= |fs| < TWO_63
    ensures AllCovered(fs, k, EncodeFields(c, heap, fts, fs, k, m).memo.seen)
    ensures ClosedFrom(heap, EncodeFields(c, heap, fts, fs, k, m).memo.seen, |m.seen|)
    decreases Unseen(heap, m.seen), fs, |fs| - k
  {
    hide WellTyped, ValidMemo, Unseen, Encode, HasType;
    if k < |fs| {
      assert FieldHasType(c, heap, fts[k], fs[k]);
      if IsZero(fs[k]) {
        ClosedFields(c, heap, fts, fs, k + 1, m);
        assert Covered(fs[k], EncodeFields(c, heap, fts, fs, k + 1, m).memo.seen);
      } else {
        var a := Encode(c, heap, fts[k].ty, fs[k], m);
        UnseenShrinks(heap, m.seen, a.memo.seen);
        Closed(c, heap, fts[k].ty, fs[k], m);
        ClosedFields(c, heap, fts, fs, k + 1, a.memo);
        Combine(heap, fs, k, a.memo.seen, EncodeFields(c, heap, fts, fs, k + 1, a.memo).memo.seen, |m.seen|);
      }
    }
  }
}
