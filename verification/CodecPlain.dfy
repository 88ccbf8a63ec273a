/** Decoding without some fields, when what is skipped holds no pointers: every reference then
    means the same struct to both sides (internal/godoc/codec/codec.go). */
module CodecPlain {
  import opened Basics
  import opened CodecBytes
  import opened CodecGraph
  import opened CodecDecode
  import opened CodecRoundTrip
  import opened CodecClosed
  import opened CodecFaithful

  predicate NoPtr(v: Value)
    decreases v
  {
    match v
    case Ptr(_) => false
    case Any(_, w) => NoPtr(w)
    case List(es) => NoPtrs(es)
    case Map(_, vs) => NoPtrs(vs)
    case _ => true
  }

  predicate NoPtrs(vs: seq<Value>)
    decreases vs, 0
  {
    forall i :: 0 <= i < |vs| ==> NoPtr(vs[i])
  }

  predicate PlainFields(dts: seq<FieldTy>, fs: seq<Value>) {
    forall k :: 0 <= k < |fs| && !Kept(dts, k) && !IsZero(fs[k]) ==> NoPtr(fs[k])
  }

  /** The fields that the decoder does not know hold no pointers. */
  predicate PlainSkips(d: Schema, heap: Heap) {
    forall id :: id in heap && heap[id].name < |d.structs| ==> PlainFields(d.structs[heap[id].name], heap[id].fields)
  }

  /** The decoder knows all fields that the encoder may write, and perhaps more. */
  predicate Newer(c: Schema, d: Schema) {
    Compatible(c, d) && forall n :: 0 <= n < |c.structs| ==> NewerFields(c.structs[n], d.structs[n])
  }

  predicate NewerFields(fts: seq<FieldTy>, dts: seq<FieldTy>) {
    forall k :: 0 <= k < |fts| && fts[k].Field? ==> Kept(dts, k)
  }

  /** It skips nothing. */
  lemma NewerPlain(c: Schema, d: Schema, heap: Heap)
    requires WellTyped(c, heap) && Newer(c, d)
    ensures PlainSkips(d, heap)
  {
    hide HasType, Compatible;
    forall id | id in heap && heap[id].name < |d.structs|
      ensures PlainFields(d.structs[heap[id].name], heap[id].fields)
    {
      assert StructHasType(c, heap, heap[id]);
      var fts, fs := c.structs[heap[id].name], heap[id].fields;
      assert NewerFields(fts, d.structs[heap[id].name]);
      assert forall k :: 0 <= k < |fs| ==> FieldHasType(c, heap, fts[k], fs[k]);
    }
  }

  /** And it can copy the same structs. */
  lemma NewerGood(c: Schema, d: Schema, heap: Heap, x: Struct)
    requires Newer(c, d) && StructHasType(c, heap, x)
    ensures GoodStruct(d, x) <==> GoodStruct(c, x)
  {
    hide HasType, GoodValue;
    var fts, dts, fs := c.structs[x.name], d.structs[x.name], x.fields;
    assert NewerFields(fts, dts) && CompatibleFields(fts, dts);
    forall k | 0 <= k < |fs| && !IsZero(fs[k])
      ensures Kept(dts, k) && Kept(fts, k) && dts[k] == fts[k]
    {
      assert FieldHasType(c, heap, fts[k], fs[k]);
    }
  }

  lemma SameIsNewer(c: Schema)
    ensures Newer(c, c) && Compatible(c, c)
  {
  }

  /** A copy made by a decoder of the same schema is whole. */
  lemma CopyIsWhole(c: Schema, heap: Heap, x: Struct, all: seq<Id>)
    requires StructHasType(c, heap, x)
    ensures CopyOf(c, x, all) == Struct(x.name, RenameFrom(x.fields, 0, all))
  {
    hide HasType;
    var fts, fs := c.structs[x.name], x.fields;
    forall k | 0 <= k < |fs|
      ensures KeptFields(fts, fs, all)[k] == RenameFrom(fs, 0, all)[k]
    {
      assert FieldHasType(c, heap, fts[k], fs[k]);
      if IsZero(fs[k]) {
        ZeroTyped(c, heap, fts[k], fs[k], all);
      }
    }
  }

  lemma ZeroTyped(c: Schema, heap: Heap, f: FieldTy, v: Value, all: seq<Id>)
    requires FieldHasType(c, heap, f, v) && IsZero(v)
    ensures Rename(v, all) == v == ZeroOf(f)
  {
  }

  // --------------------------------------------------- nothing met in passing

  lemma {:induction false} PassesBy(c: Schema, heap: Heap, ty: Ty, v: Value, m: Memo)
    requires WellTyped(c, heap) && ValidMemo(c, heap, m) && HasType(c, heap, ty, v) && NoPtr(v)
    ensures Encode(c, heap, ty, v, m).memo.seen == m.seen
    decreases v, 1
  {
    hide WellTyped, ValidMemo, Unseen, EncodePtr, EncodeList, EncodeEntries, AllHaveType, NoDup, ShortKeys, NoPtrs;
    match v
    case Any(t, w) =>
      MemoTypeValid(c, heap, m, t);
      PassesBy(c, heap, t, w, MemoType(m, t));
    case List(es) => PassesList(c, heap, ty.elem, es, 0, m);
    case Map(ks, vs) => PassesEntries(c, heap, ty.elem, ks, vs, 0, m);
    case _ =>
  }

  lemma {:induction false} PassesList(c: Schema, heap: Heap, ty: Ty, es: seq<Value>, k: nat, m: Memo)
    requires WellTyped(c, heap) && ValidMemo(c, heap, m) && AllHaveType(c, heap, ty, es) && k <= |es| && NoPtrs(es)
    ensures EncodeList(c, heap, ty, es, k, m).memo.seen == m.seen
    decreases es, |es| - k
  {
    hide WellTyped, ValidMemo, Unseen, Encode, HasType, NoPtr;
    if k < |es| {
      PassesBy(c, heap, ty, es[k], m);
      PassesList(c, heap, ty, es, k + 1, Encode(c, heap, ty, es[k], m).memo);
    }
  }

  lemma {:induction false} PassesEntries(c: Schema, heap: Heap, ty: Ty, ks: seq<Bytes>, vs: seq<Value>, k: nat, m: Memo)
    requires WellTyped(c, heap) && ValidMemo(c, heap, m) && AllHaveType(c, heap, ty, vs)
    requires |ks| == |vs| && ShortKeys(ks) && k <= |ks| && NoPtrs(vs)
    ensures EncodeEntries(c, heap, ty, ks, vs, k, m).memo.seen == m.seen
    decreases vs, |vs| - k
  {
    hide WellTyped, ValidMemo, Unseen, Encode, HasType, NoPtr, ShortKeys;
    if k < |ks| {
      PassesBy(c, heap, ty, vs[k], m);
      PassesEntries(c, heap, ty, ks, vs, k + 1, Encode(c, heap, ty, vs[k], m).memo);
    }
  }

  // ------------------------------------------------ all that is met is allocated

  lemma MetFits(c: Schema, heap: Heap, m: Memo)
    requires ValidMemo(c, heap, m)
    ensures GotFits(heap, m, m.seen)
  {
  }

  lemma {:induction false} AllMet(c: Schema, d: Schema, heap: Heap, ty: Ty, v: Value, m: Memo)
    requires WellTyped(c, heap) && ValidMemo(c, heap, m) && HasType(c, heap, ty, v) && Compatible(c, d)
    requires PlainSkips(d, heap) && GotFits(heap, m, m.seen)
    ensures Follow(c, d, heap, ty, v, m, m.seen) == Trail(Encode(c, heap, ty, v, m).memo.seen, true)
    decreases Unseen(heap, m.seen), v, 1
  {
    hide WellTyped, ValidMemo, Unseen, GotFits, PlainSkips, EncodePtr, EncodeList, EncodeEntries, FollowPtr,
         FollowList, FollowEntries, AllHaveType, NoDup, ShortKeys;
    match v
    case Ptr(id) => AllMetPtr(c, d, heap, id, m);
    case Any(t, w) =>
      MemoTypeValid(c, heap, m, t);
      GotGrows(heap, m, MemoType(m, t), m.seen);
      AllMet(c, d, heap, t, w, MemoType(m, t));
    case List(es) => AllMetList(c, d, heap, ty.elem, es, 0, m);
    case Map(ks, vs) => AllMetEntries(c, d, heap, ty.elem, ks, vs, 0, m);
    case _ =>
  }

  lemma {:induction false} AllMetPtr(c: Schema, d: Schema, heap: Heap, id: Id, m: Memo)
    requires WellTyped(c, heap) && ValidMemo(c, heap, m) && id in heap && Compatible(c, d) && PlainSkips(d, heap)
    requires GotFits(heap, m, m.seen)
    ensures FollowPtr(c, d, heap, id, m, m.seen) == Trail(EncodePtr(c, heap, id, m).memo.seen, true)
    decreases Unseen(heap, m.seen), Ptr(id), 0
  {
    hide ValidMemo, Unseen, GotFits, EncodeFields, FollowFields, HasType, WellTyped, Compatible, PlainFields;
    if id !in m.seen {
      MeetValid(c, heap, m, id);
      GotMeets(heap, m, m.seen, id);
      StructAt(c, heap, id);
      CompatibleAt(c, d, heap[id].name);
      var x := heap[id];
      assert PlainFields(d.structs[x.name], x.fields);
      AllMetFields(c, d, heap, d.structs[x.name], c.structs[x.name], x.fields, 0, Meet(m, id));
    }
  }

  lemma {:induction false} AllMetFields(c: Schema, d: Schema, heap: Heap, dts: seq<FieldTy>, fts: seq<FieldTy>,
                                        fs: seq<Value>, k: nat, m: Memo)
    requires WellTyped(c, heap) && ValidMemo(c, heap, m) && FieldsHaveType(c, heap, fts, fs) && k <= |fs| < TWO_63
    requires Compatible(c, d) && PlainSkips(d, heap) && GotFits(heap, m, m.seen) && PlainFields(dts, fs)
    ensures FollowFields(c, d, heap, dts, fts, fs, k, m, m.seen)
      == Trail(EncodeFields(c, heap, fts, fs, k, m).memo.seen, true)
    decreases Unseen(heap, m.seen), fs, |fs| - k
  {
    hide WellTyped, ValidMemo, Unseen, GotFits, Encode, Follow, HasType, PlainSkips, Compatible, NoPtr;
    if k < |fs| {
      if IsZero(fs[k]) {
        AllMetFields(c, d, heap, dts, fts, fs, k + 1, m);
      } else {
        FieldAt(c, heap, fts, fs, k, m);
        var a := Encode(c, heap, fts[k].ty, fs[k], m).memo;
        MetFits(c, heap, a);
        if Kept(dts, k) {
          AllMet(c, d, heap, fts[k].ty, fs[k], m);
        } else {
          PassesBy(c, heap, fts[k].ty, fs[k], m);
        }
        AllMetFields(c, d, heap, dts, fts, fs, k + 1, a);
      }
    }
  }

  lemma {:induction false} AllMetList(c: Schema, d: Schema, heap: Heap, ty: Ty, es: seq<Value>, k: nat, m: Memo)
    requires WellTyped(c, heap) && ValidMemo(c, heap, m) && AllHaveType(c, heap, ty, es) && k <= |es|
    requires Compatible(c, d) && PlainSkips(d, heap) && GotFits(heap, m, m.seen)
    ensures FollowList(c, d, heap, ty, es, k, m, m.seen) == Trail(EncodeList(c, heap, ty, es, k, m).memo.seen, true)
    decreases Unseen(heap, m.seen), es, |es| - k
  {
    hide WellTyped, ValidMemo, Unseen, GotFits, Encode, Follow, HasType, PlainSkips, Compatible, AllHaveType;
    if k < |es| {
      ElementAt(c, heap, ty, es, k);
      var a := Encode(c, heap, ty, es[k], m).memo;
      UnseenShrinks(heap, m.seen, a.seen);
      MetFits(c, heap, a);
      AllMet(c, d, heap, ty, es[k], m);
      AllMetList(c, d, heap, ty, es, k + 1, a);
    }
  }

  lemma {:induction false} AllMetEntries(c: Schema, d: Schema, heap: Heap, ty: Ty, ks: seq<Bytes>, vs: seq<Value>,
                                         k: nat, m: Memo)
    requires WellTyped(c, heap) && ValidMemo(c, heap, m) && AllHaveType(c, heap, ty, vs) && |ks| == |vs|
    requires ShortKeys(ks) && k <= |ks|
    requires Compatible(c, d) && PlainSkips(d, heap) && GotFits(heap, m, m.seen)
    ensures FollowEntries(c, d, heap, ty, ks, vs, k, m, m.seen)
      == Trail(EncodeEntries(c, heap, ty, ks, vs, k, m).memo.seen, true)
    decreases Unseen(heap, m.seen), vs, |vs| - k
  {
    hide WellTyped, ValidMemo, Unseen, GotFits, Encode, Follow, HasType, PlainSkips, Compatible, ShortKeys, AllHaveType;
    if k < |ks| {
      ElementAt(c, heap, ty, vs, k);
      var a := Encode(c, heap, ty, vs[k], m).memo;
      UnseenShrinks(heap, m.seen, a.seen);
      MetFits(c, heap, a);
      AllMet(c, d, heap, ty, vs[k], m);
      AllMetEntries(c, d, heap, ty, ks, vs, k + 1, a);
    }
  }
}
