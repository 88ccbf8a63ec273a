/** Skipping a value: `skip` passes over exactly one encoded value
    (internal/godoc/codec/codec.go). */
module CodecSkip {
  import opened Basics
  import opened CodecBytes
  import opened CodecGraph
  import opened CodecDecode

  lemma EncodeEntriesStep(c: Schema, heap: Heap, ty: Ty, ks: seq<Bytes>, vs: seq<Value>, k: nat, m: Memo, tail: Bytes)
    requires WellTyped(c, heap) && ValidMemo(c, heap, m) && AllHaveType(c, heap, ty, vs)
    requires |ks| == |vs| && ShortKeys(ks) && k < |ks|
    ensures |ks[k]| < TWO_63
    ensures var a := Encode(c, heap, ty, vs[k], m);
      var b := EncodeEntries(c, heap, ty, ks, vs, k + 1, a.memo);
      && EncodeEntries(c, heap, ty, ks, vs, k, m).memo == b.memo
      && EncodeEntries(c, heap, ty, ks, vs, k, m).bytes + tail == EncodeString(ks[k]) + (a.bytes + (b.bytes + tail))
  {
    hide WellTyped, ValidMemo, Encode, EncodeString, HasType;
    var a := Encode(c, heap, ty, vs[k], m);
    var b := EncodeEntries(c, heap, ty, ks, vs, k + 1, a.memo);
    assert EncodeString(ks[k]) + a.bytes + b.bytes + tail == EncodeString(ks[k]) + (a.bytes + (b.bytes + tail));
  }

  lemma SkipString(b: Bytes, tail: Bytes)
    requires |b| < TWO_63
    ensures Skip(EncodeString(b) + tail) == Ok((), tail)
  {
    hide EncodeUint, DecodeUint, SkipMany, SkipToEnd;
    assert (EncodeString(b) + tail)[1..] == EncodeUint(|b|) + (b + tail);
    UintRoundTrip(|b|, b + tail);
    assert (b + tail)[|b|..] == tail;
  }

  lemma SkipWideUint(n: Byte, b: Bytes, tail: Bytes)
    requires |b| == n < END_CODE
    ensures Skip([N_BYTES_CODE, n] + b + tail) == Ok((), tail)
  {
    hide SkipMany, SkipToEnd;
    var s := [N_BYTES_CODE, n] + b + tail;
    assert s[1..] == [n] + (b + tail);
    assert ([n] + (b + tail))[1..] == b + tail;
    assert DecodeUint(s[1..]) == Ok(n, b + tail);
    assert (b + tail)[n..] == tail;
  }

  lemma SkipUint(u: Uint64, tail: Bytes)
    ensures Skip(EncodeUint(u) + tail) == Ok((), tail)
  {
    hide SkipMany, SkipToEnd, LittleEndian, DecodeUint;
    if u < END_CODE {
      assert (EncodeUint(u) + tail)[1..] == tail;
    } else {
      var n := if u < TWO_32 then 4 else 8;
      SkipWideUint(n, LittleEndian(u, n), tail);
    }
  }

  lemma SkipList(n: nat, items: Bytes, tail: Bytes)
    requires n < TWO_63 && SkipMany(n, items + tail) == Ok((), tail)
    ensures Skip(ListHeader(n) + items + tail) == Ok((), tail)
  {
    hide EncodeUint, DecodeUint, SkipMany, SkipToEnd;
    assert (ListHeader(n) + items + tail)[1..] == EncodeUint(n) + (items + tail);
    UintRoundTrip(n, items + tail);
  }

  /** `skip` passes over exactly one encoded value, whatever the value is. */
  lemma {:induction false} SkipExact(c: Schema, heap: Heap, ty: Ty, v: Value, m: Memo, tail: Bytes)
    requires WellTyped(c, heap) && ValidMemo(c, heap, m) && HasType(c, heap, ty, v)
    ensures Skip(Encode(c, heap, ty, v, m).bytes + tail) == Ok((), tail)
    decreases Unseen(heap, m.seen), v, 1
  {
    hide WellTyped, ValidMemo, Unseen, EncodePtr, EncodeAny, EncodeList, EncodeEntries, AllHaveType, NoDup, ShortKeys,
         ListHeader, SkipMany, SkipToEnd, EncodeString, EncodeUint;
    match v
    case Int(i) => SkipUint(ZigZag(i), tail);
    case Bool(b) => assert (EncodeBool(b) + tail)[1..] == tail;
    case Str(b) => SkipString(b, tail);
    case Nil =>
      var s := Encode(c, heap, ty, v, m).bytes + tail;
      assert s[1..] == tail;
    case Ptr(id) => SkipPtr(c, heap, id, m, tail);
    case Any(t, w) => SkipAny(c, heap, t, w, m, tail);
    case List(es) =>
      SkipElems(c, heap, ty.elem, es, 0, m, tail);
      SkipList(|es|, EncodeList(c, heap, ty.elem, es, 0, m).bytes, tail);
    case Map(ks, vs) =>
      SkipEntries(c, heap, ty.elem, ks, vs, 0, m, tail);
      SkipList(2 * |ks|, EncodeEntries(c, heap, ty.elem, ks, vs, 0, m).bytes, tail);
  }

  lemma {:induction false} SkipPtr(c: Schema, heap: Heap, id: Id, m: Memo, tail: Bytes)
    requires WellTyped(c, heap) && ValidMemo(c, heap, m) && id in heap
    ensures Skip(EncodePtr(c, heap, id, m).bytes + tail) == Ok((), tail)
    decreases Unseen(heap, m.seen), Ptr(id), 0
  {
    hide ValidMemo, Unseen, EncodeFields, HasType, EncodeUint, DecodeUint, SkipMany, SkipToEnd;
    var s := EncodePtr(c, heap, id, m).bytes + tail;
    if id in m.seen {
      SeenIsSmall(c, heap, m);
      assert s[1..] == EncodeUint(IndexOf(m.seen, id)) + tail;
      UintRoundTrip(IndexOf(m.seen, id), tail);
    } else {
      MeetValid(c, heap, m, id);
      var x := heap[id];
      assert s[1..] == EncodeFields(c, heap, c.structs[x.name], x.fields, 0, Meet(m, id)).bytes + ([END_CODE] + tail);
      SkipFields(c, heap, c.structs[x.name], x.fields, 0, Meet(m, id), tail);
    }
  }

  lemma {:induction false} SkipAny(c: Schema, heap: Heap, t: Ty, w: Value, m: Memo, tail: Bytes)
    requires WellTyped(c, heap) && ValidMemo(c, heap, m) && t in c.registered && HasType(c, heap, t, w)
    ensures Skip(EncodeAny(c, heap, t, w, m).bytes + tail) == Ok((), tail)
    decreases Unseen(heap, m.seen), w, 2
  {
    hide WellTyped, ValidMemo, Unseen, Encode, HasType, EncodeUint, ListHeader, Skip, SkipToEnd;
    var m1 := MemoType(m, t);
    MemoTypeValid(c, heap, m, t);
    SeenIsSmall(c, heap, m1);
    var num := EncodeUint(IndexOf(m1.types, t));
    var b := Encode(c, heap, t, w, m1).bytes;
    assert ListHeader(2) + num + b + tail == ListHeader(2) + (num + b) + tail;
    assert (num + b) + tail == num + (b + tail);
    SkipUint(IndexOf(m1.types, t), b + tail);
    SkipExact(c, heap, t, w, m1, tail);
    assert SkipMany(2, num + (b + tail)) == SkipMany(1, b + tail) == SkipMany(0, tail);
    SkipList(2, num + b, tail);
  }

  lemma {:induction false} SkipElems(c: Schema, heap: Heap, ty: Ty, es: seq<Value>, k: nat, m: Memo, tail: Bytes)
    requires WellTyped(c, heap) && ValidMemo(c, heap, m) && AllHaveType(c, heap, ty, es) && k <= |es|
    ensures SkipMany(|es| - k, EncodeList(c, heap, ty, es, k, m).bytes + tail) == Ok((), tail)
    decreases Unseen(heap, m.seen), es, |es| - k
  {
    hide WellTyped, ValidMemo, Unseen, Encode, HasType, Skip, SkipToEnd;
    if k == |es| {
      assert [] + tail == tail;
    } else {
      var a := Encode(c, heap, ty, es[k], m);
      UnseenShrinks(heap, m.seen, a.memo.seen);
      var b := EncodeList(c, heap, ty, es, k + 1, a.memo);
      assert a.bytes + b.bytes + tail == a.bytes + (b.bytes + tail);
      SkipExact(c, heap, ty, es[k], m, b.bytes + tail);
      SkipElems(c, heap, ty, es, k + 1, a.memo, tail);
    }
  }

  lemma {:induction false} SkipEntries(c: Schema, heap: Heap, ty: Ty, ks: seq<Bytes>, vs: seq<Value>, k: nat, m: Memo,
                                       tail: Bytes)
    requires WellTyped(c, heap) && ValidMemo(c, heap, m) && AllHaveType(c, heap, ty, vs)
    requires |ks| == |vs| && ShortKeys(ks) && k <= |ks|
    ensures SkipMany(2 * (|ks| - k), EncodeEntries(c, heap, ty, ks, vs, k, m).bytes + tail) == Ok((), tail)
    decreases Unseen(heap, m.seen), vs, |vs| - k
  {
    hide WellTyped, ValidMemo, Unseen, Encode, HasType, Skip, SkipToEnd, EncodeString;
    if k == |ks| {
      assert [] + tail == tail;
    } else {
      var a := Encode(c, heap, ty, vs[k], m);
      UnseenShrinks(heap, m.seen, a.memo.seen);
      var b := EncodeEntries(c, heap, ty, ks, vs, k + 1, a.memo);
      EncodeEntriesStep(c, heap, ty, ks, vs, k, m, tail);
      SkipString(ks[k], a.bytes + (b.bytes + tail));
      SkipExact(c, heap, ty, vs[k], m, b.bytes + tail);
      SkipEntries(c, heap, ty, ks, vs, k + 1, a.memo, tail);
    }
  }

  lemma {:induction false} SkipFields(c: Schema, heap: Heap, fts: seq<FieldTy>, fs: seq<Value>, k: nat, m: Memo,
                                      tail: Bytes)
    requires WellTyped(c, heap) && ValidMemo(c, heap, m) && FieldsHaveType(c, heap, fts, fs)
    requires k <= |fs| < TWO_63
    ensures SkipToEnd(EncodeFields(c, heap, fts, fs, k, m).bytes + ([END_CODE] + tail)) == Ok((), tail)
    decreases Unseen(heap, m.seen), fs, |fs| - k
  {
    hide WellTyped, ValidMemo, Unseen, Encode, HasType, Skip, SkipMany, EncodeUint;
    if k == |fs| {
      assert [] + ([END_CODE] + tail) == [END_CODE] + tail;
      assert ([END_CODE] + tail)[1..] == tail;
    } else if IsZero(fs[k]) {
      SkipFields(c, heap, fts, fs, k + 1, m, tail);
    } else {
      assert FieldHasType(c, heap, fts[k], fs[k]);
      var a := Encode(c, heap, fts[k].ty, fs[k], m);
      UnseenShrinks(heap, m.seen, a.memo.seen);
      var t := EncodeFields(c, heap, fts, fs, k + 1, a.memo).bytes + ([END_CODE] + tail);
      assert EncodeUint(k) + a.bytes + EncodeFields(c, heap, fts, fs, k + 1, a.memo).bytes + ([END_CODE] + tail)
          == EncodeUint(k) + (a.bytes + t);
      SkipUint(k, a.bytes + t);
      UintNotEnd(k);
      SkipExact(c, heap, fts[k].ty, fs[k], m, t);
      assert (a.bytes + t)[0] == a.bytes[0];
      FirstByte(c, heap, fts[k].ty, fs[k], m);
      SkipFields(c, heap, fts, fs, k + 1, a.memo, tail);
    }
  }

  /** No encoded value begins with the byte that closes a struct. */
  lemma FirstByte(c: Schema, heap: Heap, ty: Ty, v: Value, m: Memo)
    requires WellTyped(c, heap) && ValidMemo(c, heap, m) && HasType(c, heap, ty, v)
    ensures Encode(c, heap, ty, v, m).bytes[0] != END_CODE
  {
    hide WellTyped, ValidMemo, EncodeFields, EncodeList, EncodeEntries;
  }
}
