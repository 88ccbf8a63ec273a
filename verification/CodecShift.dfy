/** What goes wrong when a field that the decoder does not know holds the first pointer to a
    struct: `skip` reads past the struct without numbering it, and later references are off
    (internal/godoc/codec/codec.go). */
module CodecShift {
  import opened Basics
  import opened CodecBytes
  import opened CodecGraph
  import opened CodecDecode
  import opened CodecRoundTrip
  import opened CodecClosed
  import opened CodecFaithful
  import opened CodecStream

  /** A struct of three pointers to structs of one number. */
  function Written(): Schema {
    Schema([[Field(TPtr(1)), Field(TPtr(1)), Field(TPtr(1))], [Field(TInt)]], {TPtr(0)})
  }

  /** The same, after the first pointer has been retired. */
  function Known(): Schema {
    Schema([[Retired, Field(TPtr(1)), Field(TPtr(1))], [Field(TInt)]], {TPtr(0)})
  }

  /** The first and the last pointer are the same. */
  function Shared(a: Int64, middle: Value, b: Int64): Heap {
    map[0 := Struct(0, [Ptr(1), middle, Ptr(1)]), 1 := Struct(1, [Int(a)]), 2 := Struct(1, [Int(b)])]
  }

  function Root(): seq<Value> {
    [Any(TPtr(0), Ptr(0))]
  }

  lemma {:induction false} SharedTyped(a: Int64, middle: Value, b: Int64)
    requires middle == Nil || middle == Ptr(2)
    ensures WellTyped(Written(), Shared(a, middle, b)) && AllHaveType(Written(), Shared(a, middle, b), TAny, Root())
    ensures Compatible(Written(), Known())
  {
    var c, heap := Written(), Shared(a, middle, b);
    assert heap.Keys == {0, 1, 2} && |heap| == |heap.Keys|;
    assert StructHasType(c, heap, heap[0]) && StructHasType(c, heap, heap[1]) && StructHasType(c, heap, heap[2]);
    assert HasType(c, heap, TAny, Root()[0]);
  }

  /** A struct of one number that has not been met yet. */
  lemma {:induction false} Leaf(c: Schema, d: Schema, heap: Heap, id: Id, m: Memo, refs: seq<Struct>, prev: Value)
    requires WellTyped(c, heap) && ValidMemo(c, heap, m) && Compatible(c, d) && ValidRefs(d, refs)
    requires id in heap && id !in m.seen && c.structs[1..] == d.structs[1..] == [[Field(TInt)]]
    requires heap[id].name == 1 && |heap[id].fields| == 1 && heap[id].fields[0].Int? && heap[id].fields[0].i != 0
    ensures EncodePtr(c, heap, id, m).memo == Meet(m, id)
    ensures ExpectPtr(c, d, heap, id, m, refs, prev) == Out(Dec(Ptr(|refs|), refs + [heap[id]]))
  {
    hide ValidMemo, Unseen, EncodeInt, EncodeUint, SetsOnly;
    var x := heap[id];
    assert c.structs[1] == c.structs[1..][0] && d.structs[1] == d.structs[1..][0];
    MeetValid(c, heap, m, id);
    SeenIsSmall(c, heap, m);
    StructAt(c, heap, id);
    ValidMore(d, refs, 1);
    OneNumber(c, d, heap, x, Meet(m, id), refs + [ZeroStruct(d, 1)], |refs|);
    assert (refs + [ZeroStruct(d, 1)])[|refs| := x] == refs + [x];
    assert !IsZero(x.fields[0]);
  }

  lemma {:induction false} OneNumber(c: Schema, d: Schema, heap: Heap, x: Struct, m: Memo, refs: seq<Struct>, idx: nat)
    requires WellTyped(c, heap) && ValidMemo(c, heap, m) && Compatible(c, d) && ValidRefs(d, refs)
    requires |c.structs| == |d.structs| == 2 && c.structs[1] == d.structs[1] == [Field(TInt)]
    requires StructHasType(c, heap, x)
    requires x.name == 1 && x.fields[0].i != 0 && idx < |refs| && refs[idx].name == 1
    ensures EncodeFields(c, heap, c.structs[1], x.fields, 0, m).memo == m
    ensures ExpectFields(c, d, heap, c.structs[1], x.fields, 0, idx, m, refs) == Out(refs[idx := x])
  {
    hide WellTyped, ValidMemo, Compatible, Unseen, EncodeInt, EncodeUint, SetsOnly;
    assert FieldHasType(c, heap, c.structs[1][0], x.fields[0]);
    assert refs[idx].fields[0 := x.fields[0]] == x.fields;
    assert SetField(refs, idx, 0, x.fields[0]) == refs[idx := x];
    assert !IsZero(x.fields[0]) && Kept(d.structs[1], 0);
    var f := ExpectFields(c, d, heap, c.structs[1], x.fields, 1, idx, m, refs[idx := x]);
  }

  lemma {:induction false} MemoNoDup(c: Schema, heap: Heap, m: Memo)
    requires ValidMemo(c, heap, m)
    ensures NoDup(m.seen)
  {
  }

  /** The last pointer is a reference to number 1. */
  lemma {:induction false} LastField(a: Int64, middle: Value, b: Int64, m: Memo, refs: seq<Struct>)
    requires middle == Nil || middle == Ptr(2)
    requires WellTyped(Written(), Shared(a, middle, b)) && ValidMemo(Written(), Shared(a, middle, b), m)
    requires Compatible(Written(), Known())
    requires FieldsHaveType(Written(), Shared(a, middle, b), Written().structs[0], [Ptr(1), middle, Ptr(1)])
    requires ValidRefs(Known(), refs) && |refs| > 0 && refs[0].name == 0 && |m.seen| > 1 && m.seen[0] != 1
    requires m.seen[1] == 1
    ensures ExpectFields(Written(), Known(), Shared(a, middle, b), Written().structs[0], [Ptr(1), middle, Ptr(1)], 2,
      0, m, refs)
         == if |refs| > 1 && refs[1].name == 1 then Out(SetField(refs, 0, 2, Ptr(1))) else Crash
  {
    hide WellTyped, ValidMemo, Compatible, Unseen, SetsOnly, EncodeUint;
    var c, d, heap, fs := Written(), Known(), Shared(a, middle, b), [Ptr(1), middle, Ptr(1)];
    assert NoDup(m.seen) by { MemoNoDup(c, heap, m); }
    IndexOfAt(m.seen, 1);
    assert FieldHasType(c, heap, c.structs[0][2], fs[2]);
    var o := ExpectPtr(c, d, heap, 1, m, refs, refs[0].fields[2]);
    assert o == if |refs| > 1 && refs[1].name == 1 then Out(Dec(Ptr(1), refs)) else Crash;
    if o.Out? {
      ValidSet(d, refs, 0, 2, Ptr(1));
      assert ExpectFields(c, d, heap, c.structs[0], fs, 3, 0, m, SetField(refs, 0, 2, Ptr(1)))
          == Out(SetField(refs, 0, 2, Ptr(1)));
    }
  }

  /** A middle pointer, if there is one, is allocated as number 1. */
  lemma {:induction false} MiddleField(a: Int64, middle: Value, b: Int64, m: Memo, refs: seq<Struct>)
    requires (middle == Nil || middle == Ptr(2)) && b != 0
    requires WellTyped(Written(), Shared(a, middle, b)) && ValidMemo(Written(), Shared(a, middle, b), m)
    requires Compatible(Written(), Known())
    requires FieldsHaveType(Written(), Shared(a, middle, b), Written().structs[0], [Ptr(1), middle, Ptr(1)])
    requires ValidRefs(Known(), refs) && refs == [Struct(0, [Nil, Nil, Nil])] && m.seen == [0, 1]
    ensures ExpectFields(Written(), Known(), Shared(a, middle, b), Written().structs[0], [Ptr(1), middle, Ptr(1)], 1,
      0, m, refs)
         == if middle == Nil then Crash else Out([Struct(0, [Nil, Ptr(1), Ptr(1)]), Struct(1, [Int(b)])])
  {
    hide WellTyped, ValidMemo, Compatible, Unseen, SetsOnly, EncodePtr, ExpectPtr;
    var c, d, heap := Written(), Known(), Shared(a, middle, b);
    if middle == Nil {
      LastField(a, middle, b, m, refs);
    } else {
      Leaf(c, d, heap, 2, m, refs, Nil);
      var fs, refs1 := [Ptr(1), middle, Ptr(1)], refs + [Struct(1, [Int(b)])];
      var refs2 := SetField(refs1, 0, 1, Ptr(1));
      MeetValid(c, heap, m, 2);
      LastField(a, middle, b, Meet(m, 2), refs2);
      assert refs2[0].fields == [Nil, Ptr(1), Nil];
      var refs3 := SetField(refs2, 0, 2, Ptr(1));
      assert refs3[0].fields == [Nil, Ptr(1), Ptr(1)];
      assert refs3 == [Struct(0, [Nil, Ptr(1), Ptr(1)]), Struct(1, [Int(b)])];
    }
  }

  /** The retired pointer is skipped, and the encoder has numbered what it leads to. */
  lemma {:induction false} AllFields(a: Int64, middle: Value, b: Int64, m: Memo, refs: seq<Struct>)
    requires (middle == Nil || middle == Ptr(2)) && a != 0 && b != 0
    requires WellTyped(Written(), Shared(a, middle, b)) && ValidMemo(Written(), Shared(a, middle, b), m)
    requires Compatible(Written(), Known())
    requires FieldsHaveType(Written(), Shared(a, middle, b), Written().structs[0], [Ptr(1), middle, Ptr(1)])
    requires ValidRefs(Known(), refs) && refs == [Struct(0, [Nil, Nil, Nil])] && m.seen == [0]
    ensures ExpectFields(Written(), Known(), Shared(a, middle, b), Written().structs[0], [Ptr(1), middle, Ptr(1)], 0,
      0, m, refs)
         == if middle == Nil then Crash else Out([Struct(0, [Nil, Ptr(1), Ptr(1)]), Struct(1, [Int(b)])])
  {
    hide WellTyped, ValidMemo, Compatible, Unseen, SetsOnly, EncodePtr, ExpectPtr;
    Leaf(Written(), Known(), Shared(a, middle, b), 1, m, refs, Nil);
    MiddleField(a, middle, b, Meet(m, 1), refs);
  }

  /** The struct with its three pointers, as the root of a stream. */
  lemma {:induction false} WholeStruct(a: Int64, middle: Value, b: Int64, m: Memo)
    requires (middle == Nil || middle == Ptr(2)) && a != 0 && b != 0
    requires WellTyped(Written(), Shared(a, middle, b)) && ValidMemo(Written(), Shared(a, middle, b), m)
    requires Compatible(Written(), Known())
    requires ValidRefs(Known(), []) && m.seen == []
    ensures ExpectPtr(Written(), Known(), Shared(a, middle, b), 0, m, [], Nil)
         == if middle == Nil then Crash else Out(Dec(Ptr(0), [Struct(0, [Nil, Ptr(1), Ptr(1)]), Struct(1, [Int(b)])]))
  {
    hide ValidMemo, Compatible, Unseen, SetsOnly, HasType, ExpectFields, EncodeFields;
    var c, d, heap := Written(), Known(), Shared(a, middle, b);
    MeetValid(c, heap, m, 0);
    var refs := [] + [ZeroStruct(d, 0)];
    assert ZeroStruct(d, 0).fields == [Nil, Nil, Nil];
    assert StructHasType(c, heap, heap[0]);
    AllFields(a, middle, b, Meet(m, 0), refs);
    assert !IsZero(heap[0].fields[0]);
  }

  lemma {:induction false} ListOfOne(c: Schema, d: Schema, heap: Heap, t: Ty, w: Value)
    requires WellTyped(c, heap) && AllHaveType(c, heap, TAny, [Any(t, w)]) && t in c.registered
    requires HasType(c, heap, t, w) && Compatible(c, d)
    requires ValidMemo(c, heap, Memo([], [])) && ValidMemo(c, heap, MemoType(Memo([], []), t)) && ValidRefs(d, [])
    ensures var o := Expect(c, d, heap, t, w, MemoType(Memo([], []), t), [], ZeroOf(Field(t)));
      ExpectList(c, d, heap, TAny, [Any(t, w)], 0, [], Memo([], []), [])
      == if o.Out? then Out(Dec(List([Any(t, o.value.v)]), o.value.refs)) else Crash
  {
    hide WellTyped, Compatible, ValidRefs, ValidMemo, Unseen, HasType, Encode;
    var m0, es := Memo([], []), [Any(t, w)];
    var o := ExpectAny(c, d, heap, t, w, m0, []);
    if o.Out? {
      assert [] + [o.value.v] == [o.value.v];
      var a := Encode(c, heap, TAny, es[0], m0).memo;
      assert ExpectList(c, d, heap, TAny, es, |es|, [o.value.v], a, o.value.refs)
          == Out(Dec(List([o.value.v]), o.value.refs));
    }
  }

  /** The first pointer is skipped. Without a middle pointer, decoding panics; with one, the last
      pointer, which led to a struct of number `a`, comes back as a pointer to `b`. */
  lemma {:induction false} SkippedStructShifts(g: Registry, a: Int64, middle: Value, b: Int64)
    requires (middle == Nil || middle == Ptr(2)) && a != 0 && b != 0 && ValidRegistry(Written(), g)
    ensures WellTyped(Written(), Shared(a, middle, b)) && AllHaveType(Written(), Shared(a, middle, b), TAny, Root())
    ensures Compatible(Written(), Known())
    ensures DecodeStream(Known(), g, 1, EncodeStream(Written(), g, Shared(a, middle, b), Root()))
         == if middle == Nil then Panic
            else Ok(Dec(List(Root()), [Struct(0, [Nil, Ptr(1), Ptr(1)]), Struct(1, [Int(b)])]), [])
  {
    hide WellTyped, AllHaveType, HasType, Compatible, ValidRegistry, EncodeStream, DecodeStream, ExpectList, ExpectPtr,
         ValidMemo, Written, Known, Shared;
    SharedTyped(a, middle, b);
    var c, d, heap := Written(), Known(), Shared(a, middle, b);
    RootTyped(a, middle, b);
    StreamOutcome(c, d, g, heap, Root());
    ListOfOne(c, d, heap, TPtr(0), Ptr(0));
    WholeStruct(a, middle, b, MemoType(Memo([], []), TPtr(0)));
  }

  lemma {:induction false} RootTyped(a: Int64, middle: Value, b: Int64)
    ensures var c, heap := Written(), Shared(a, middle, b);
      && TPtr(0) in c.registered && HasType(c, heap, TPtr(0), Ptr(0)) && ValidRefs(Known(), [])
      && ValidMemo(c, heap, Memo([], [])) && ValidMemo(c, heap, MemoType(Memo([], []), TPtr(0)))
  {
  }

  /** No choice of structs makes this outcome a copy of them. */
  lemma {:induction false} ShiftIsNoCopy(a: Int64, b: Int64, got: seq<Id>, refs: seq<Struct>)
    requires InHeap(Shared(a, Ptr(2), b), got) && refs == [Struct(0, [Nil, Ptr(1), Ptr(1)]), Struct(1, [Int(b)])]
    ensures refs != Copies(Known(), Shared(a, Ptr(2), b), got, 0, got)
  {
    hide IndexOf;
    var d, heap := Known(), Shared(a, Ptr(2), b);
    var fs := KeptFields(d.structs[0], heap[0].fields, got);
    assert fs[1] == Ptr(IndexOf(got, 2)) && fs[2] == Ptr(IndexOf(got, 1));
    var copies := Copies(d, heap, got, 0, got);
    assert |copies| == 2 ==> copies[0] == CopyOf(d, heap[got[0]], got);
  }

  /** Of the conditions of `StreamReads` only one fails on it: a reference is followed that means
      another struct to the decoder, or none. */
  lemma {:induction false} ShiftIsNotAligned(g: Registry, a: Int64, middle: Value, b: Int64)
    requires (middle == Nil || middle == Ptr(2)) && a != 0 && b != 0 && ValidRegistry(Written(), g)
    ensures WellTyped(Written(), Shared(a, middle, b)) && AllHaveType(Written(), Shared(a, middle, b), TAny, Root())
    ensures !FollowRoots(Written(), Known(), Shared(a, middle, b), Root()).aligned
    ensures AllGood(TAny, Root(), 0)
    ensures forall id :: id in Shared(a, middle, b) ==> GoodStruct(Known(), Shared(a, middle, b)[id])
  {
    hide WellTyped, AllHaveType, HasType, Compatible, ValidRegistry, EncodeStream, DecodeStream, FollowRoots, Written,
         Known, Shared, GoodStruct, Copies;
    SharedTyped(a, middle, b);
    SkippedStructShifts(g, a, middle, b);
    var c, d, heap := Written(), Known(), Shared(a, middle, b);
    StreamReads(c, d, g, heap, Root());
    SharedGood(a, middle, b);
    var got := FollowRoots(c, d, heap, Root()).got;
    if middle == Ptr(2) {
      ShiftIsNoCopy(a, b, got, [Struct(0, [Nil, Ptr(1), Ptr(1)]), Struct(1, [Int(b)])]);
    }
  }

  lemma {:induction false} SharedGood(a: Int64, middle: Value, b: Int64)
    requires (middle == Nil || middle == Ptr(2)) && a != 0 && b != 0
    ensures AllGood(TAny, Root(), 0)
    ensures forall id :: id in Shared(a, middle, b) ==> GoodStruct(Known(), Shared(a, middle, b)[id])
  {
    var heap := Shared(a, middle, b);
    assert !IsZero(heap[0].fields[0]) && !IsZero(heap[1].fields[0]) && !IsZero(heap[2].fields[0]);
    assert GoodValue(TAny, Root()[0]);
  }
}
