/** What the decoder makes of an encoding, for every graph, also when the decoder no longer
    knows some of the fields.

    `Expect` follows the encoder's walk and says, without any bytes, what the decoder will
    build. `Simulation` proves that decoding the encoder's bytes gives exactly that. */
module CodecRoundTrip {
  import opened Basics
  import opened CodecBytes
  import opened CodecGraph
  import opened CodecDecode
  import opened CodecSkip

  datatype Outcome<+T> = Out(value: T) | Crash {
    predicate IsFailure() { Crash? }
    function PropagateFailure<U>(): Outcome<U>
      requires Crash?
    {
      Crash
    }
    function Extract(): T
      requires Out?
    {
      value
    }
  }

  /** Encoder and decoder may be of different ages: each may have fields that the other does not
      know, or that it has retired; a field that both know is the same. */
  predicate Compatible(c: Schema, d: Schema) {
    && |c.structs| <= |d.structs|
    && forall n :: 0 <= n < |c.structs| ==> CompatibleFields(c.structs[n], d.structs[n])
  }

  predicate CompatibleFields(fts: seq<FieldTy>, dts: seq<FieldTy>) {
    forall k :: 0 <= k < |fts| && k < |dts| && fts[k].Field? && dts[k].Field? ==> dts[k] == fts[k]
  }

  /** Field `k` is known to the decoder. */
  predicate Kept(dts: seq<FieldTy>, k: nat) {
    k < |dts| && dts[k].Field?
  }

  predicate AllZero(fs: seq<Value>, k: nat) {
    forall i :: k <= i < |fs| ==> IsZero(fs[i])
  }

  /** A step that fills in fields `k`, `k+1`, ... of struct `idx` and allocates more structs. */
  predicate SetsOnly(refs: seq<Struct>, idx: nat, k: nat, refs': seq<Struct>) {
    && |refs| <= |refs'| && (forall j :: 0 <= j < |refs| && j != idx ==> refs'[j] == refs[j])
    && (idx < |refs| ==>
          && refs'[idx].name == refs[idx].name && |refs'[idx].fields| == |refs[idx].fields|
          && forall i :: 0 <= i < k && i < |refs[idx].fields| ==> refs'[idx].fields[i] == refs[idx].fields[i])
  }

  lemma SetsOnlyLast(refs: seq<Struct>, x: Struct, refs': seq<Struct>)
    requires SetsOnly(refs + [x], |refs|, 0, refs')
    ensures refs <= refs'
  {
  }

  lemma SetsOnlyRefl(refs: seq<Struct>, idx: nat, k: nat)
    ensures SetsOnly(refs, idx, k, refs)
  {
  }

  lemma SetsOnlySkip(refs: seq<Struct>, idx: nat, k: nat, r: Outcome<seq<Struct>>)
    requires r.Out? ==> SetsOnly(refs, idx, k + 1, r.value)
    ensures r.Out? ==> SetsOnly(refs, idx, k, r.value)
  {
  }

  lemma SetsOnlyStep(refs: seq<Struct>, refs1: seq<Struct>, idx: nat, k: nat, v: Value, r: Outcome<seq<Struct>>)
    requires refs <= refs1 && idx < |refs| && k < |refs[idx].fields|
    requires r.Out? ==> SetsOnly(SetField(refs1, idx, k, v), idx, k + 1, r.value)
    ensures r.Out? ==> SetsOnly(refs, idx, k, r.value)
  {
  }

  lemma ValidMore(d: Schema, refs: seq<Struct>, n: nat)
    requires ValidRefs(d, refs) && n < |d.structs|
    ensures ValidRefs(d, refs + [ZeroStruct(d, n)]) && (refs + [ZeroStruct(d, n)])[|refs|].name == n
  {
  }

  lemma ValidSet(d: Schema, refs: seq<Struct>, idx: nat, k: nat, v: Value)
    requires ValidRefs(d, refs) && idx < |refs| && k < |refs[idx].fields|
    ensures ValidRefs(d, SetField(refs, idx, k, v)) && SetField(refs, idx, k, v)[idx].name == refs[idx].name
  {
  }

  lemma CompatibleAt(c: Schema, d: Schema, n: nat)
    requires Compatible(c, d) && n < |c.structs|
    ensures n < |d.structs| && CompatibleFields(c.structs[n], d.structs[n])
  {
    hide CompatibleFields;
  }

  /** The outcome for a value of schema `c` in a decoder of schema `d`. */
  function Expect(c: Schema, d: Schema, heap: Heap, ty: Ty, v: Value, m: Memo, refs: seq<Struct>,
                  prev: Value): (r: Outcome<Dec>)
    requires WellTyped(c, heap) && ValidMemo(c, heap, m) && HasType(c, heap, ty, v) && Compatible(c, d)
    requires ValidRefs(d, refs)
    ensures r.Out? ==> ValidRefs(d, r.value.refs) && refs <= r.value.refs
    decreases Unseen(heap, m.seen), v, 1
  {
    hide WellTyped, ValidMemo, ValidRefs, Compatible, Unseen, EncodePtr, EncodeAny, EncodeList, EncodeEntries, NoDup,
         ShortKeys, AllHaveType;
    match v
    case Int(_) => Out(Dec(v, refs))
    case Bool(_) => Out(Dec(v, refs))
    case Str(_) => Out(Dec(v, refs))
    case Nil => if ty.TIface? then Crash else Out(Dec(if ty.TAny? then Nil else prev, refs))
    case Ptr(id) => ExpectPtr(c, d, heap, id, m, refs, prev)
    case Any(t, w) => ExpectAny(c, d, heap, t, w, m, refs)
    case List(es) => ExpectList(c, d, heap, ty.elem, es, 0, [], m, refs)
    case Map(ks, vs) => ExpectEntries(c, d, heap, ty.elem, ks, vs, 0, [], ZeroOf(Field(ty.elem)), m, refs)
  }

  function ExpectAny(c: Schema, d: Schema, heap: Heap, t: Ty, w: Value, m: Memo, refs: seq<Struct>): (r: Outcome<Dec>)
    requires WellTyped(c, heap) && ValidMemo(c, heap, m) && t in c.registered && HasType(c, heap, t, w)
    requires Compatible(c, d)
    requires ValidRefs(d, refs)
    ensures r.Out? ==> ValidRefs(d, r.value.refs) && refs <= r.value.refs
    decreases Unseen(heap, m.seen), w, 2
  {
    hide WellTyped, ValidMemo, ValidRefs, Compatible, Unseen, Encode, HasType;
    MemoTypeValid(c, heap, m, t);
    var x :- Expect(c, d, heap, t, w, MemoType(m, t), refs, ZeroOf(Field(t)));
    Out(Dec(Any(t, x.v), x.refs))
  }

  /** A reference is read as a position among the structs that the decoder has allocated. */
  function ExpectPtr(c: Schema, d: Schema, heap: Heap, id: Id, m: Memo, refs: seq<Struct>,
                     prev: Value): (r: Outcome<Dec>)
    requires WellTyped(c, heap) && ValidMemo(c, heap, m) && id in heap && Compatible(c, d) && ValidRefs(d, refs)
    ensures r.Out? ==> ValidRefs(d, r.value.refs) && refs <= r.value.refs
    decreases Unseen(heap, m.seen), Ptr(id), 0
  {
    hide ValidMemo, ValidRefs, Compatible, SetsOnly, Unseen, EncodeFields, ZeroStruct;
    if id in m.seen then
      var u := IndexOf(m.seen, id);
      if u < |refs| && refs[u].name == heap[id].name then Out(Dec(Ptr(u), refs)) else Crash
    else
      MeetValid(c, heap, m, id);
      var x := heap[id];
      CompatibleAt(c, d, x.name);
      ValidMore(d, refs, x.name);
      var refs' :- ExpectFields(c, d, heap, c.structs[x.name], x.fields, 0, |refs|, Meet(m, id),
        refs + [ZeroStruct(d, x.name)]);
      SetsOnlyLast(refs, ZeroStruct(d, x.name), refs');
      Out(Dec(if AllZero(x.fields, 0) then prev else Ptr(|refs|), refs'))
  }

  function ExpectFields(c: Schema, d: Schema, heap: Heap, fts: seq<FieldTy>, fs: seq<Value>, k: nat, idx: nat, m: Memo,
                        refs: seq<Struct>)
    : (r: Outcome<seq<Struct>>)
    requires WellTyped(c, heap) && ValidMemo(c, heap, m) && FieldsHaveType(c, heap, fts, fs) && Compatible(c, d)
    requires ValidRefs(d, refs)
    requires k <= |fs| < TWO_63 && idx < |refs| && CompatibleFields(fts, d.structs[refs[idx].name])
    ensures r.Out? ==> ValidRefs(d, r.value) && SetsOnly(refs, idx, k, r.value)
    decreases Unseen(heap, m.seen), fs, |fs| - k
  {
    hide SetsOnly, Compatible, WellTyped, ValidMemo, Unseen, HasType, Encode;
    if k == |fs| then SetsOnlyRefl(refs, idx, k); Out(refs)
    else if IsZero(fs[k]) then
      var r := ExpectFields(c, d, heap, fts, fs, k + 1, idx, m, refs);
      SetsOnlySkip(refs, idx, k, r);
      r
    else
      assert FieldHasType(c, heap, fts[k], fs[k]);
      var a := Encode(c, heap, fts[k].ty, fs[k], m);
      UnseenShrinks(heap, m.seen, a.memo.seen);
      if !Kept(d.structs[refs[idx].name], k) then
        var r := ExpectFields(c, d, heap, fts, fs, k + 1, idx, a.memo, refs);
        SetsOnlySkip(refs, idx, k, r);
        r
      else
        var x :- Expect(c, d, heap, fts[k].ty, fs[k], m, refs, refs[idx].fields[k]);
        ValidSet(d, x.refs, idx, k, x.v);
        var r := ExpectFields(c, d, heap, fts, fs, k + 1, idx, a.memo, SetField(x.refs, idx, k, x.v));
        SetsOnlyStep(refs, x.refs, idx, k, x.v, r);
        r
  }

  function ExpectList(c: Schema, d: Schema, heap: Heap, ty: Ty, es: seq<Value>, k: nat, done: seq<Value>, m: Memo,
                      refs: seq<Struct>)
    : (r: Outcome<Dec>)
    requires WellTyped(c, heap) && ValidMemo(c, heap, m) && AllHaveType(c, heap, ty, es) && Compatible(c, d)
    requires ValidRefs(d, refs)
    requires k <= |es|
    ensures r.Out? ==> ValidRefs(d, r.value.refs) && refs <= r.value.refs && r.value.v.List? && done <= r.value.v.elems
    decreases Unseen(heap, m.seen), es, |es| - k
  {
    hide WellTyped, ValidMemo, ValidRefs, Compatible, Unseen, Encode, HasType, AllHaveType, Expect, ZeroOf, Keeps,
         Extends;
    if k == |es| then Out(Dec(List(done), refs))
    else
      AfterElement(c, heap, ty, es, k, m);
      var a := Encode(c, heap, ty, es[k], m);
      match Expect(c, d, heap, ty, es[k], m, refs, ZeroOf(Field(ty)))
      case Crash => Crash
      case Out(x) => ExpectList(c, d, heap, ty, es, k + 1, done + [x.v], a.memo, x.refs)
  }

  function ExpectEntries(c: Schema, d: Schema, heap: Heap, ty: Ty, ks: seq<Bytes>, vs: seq<Value>, k: nat,
                         done: seq<Value>, cur: Value, m: Memo, refs: seq<Struct>): (r: Outcome<Dec>)
    requires WellTyped(c, heap) && ValidMemo(c, heap, m) && AllHaveType(c, heap, ty, vs) && Compatible(c, d)
    requires ValidRefs(d, refs)
    requires |ks| == |vs| && ShortKeys(ks) && k <= |ks|
    ensures r.Out? ==>
      ValidRefs(d, r.value.refs) && refs <= r.value.refs && r.value.v.Map? && r.value.v.keys == ks
        && done <= r.value.v.vals
    decreases Unseen(heap, m.seen), vs, |vs| - k
  {
    hide WellTyped, ValidMemo, ValidRefs, Compatible, Unseen, Encode, HasType, AllHaveType, Expect, ZeroOf, Keeps,
         Extends;
    if k == |ks| then Out(Dec(Map(ks, done), refs))
    else
      AfterElement(c, heap, ty, vs, k, m);
      var a := Encode(c, heap, ty, vs[k], m);
      var x :- Expect(c, d, heap, ty, vs[k], m, refs, cur);
      ExpectEntries(c, d, heap, ty, ks, vs, k + 1, done + [x.v], x.v, a.memo, x.refs)
  }

  function AsRead<T>(o: Outcome<T>, tail: Bytes): Read<T> {
    match o
    case Out(x) => Ok(x, tail)
    case Crash => Panic
  }

  lemma DecodeNil(d: Schema, types: seq<Ty>, ty: Ty, refs: seq<Struct>, prev: Value, tail: Bytes)
    requires ValidRefs(d, refs) && !ty.TInt? && !ty.TBool? && !ty.TStr?
    ensures Decode(d, types, ty, (if ty.TAny? || ty.TIface? then [0] else [NIL_CODE]) + tail, refs, prev)
         == if ty.TIface? then Panic else Ok(Dec(if ty.TAny? then Nil else prev, refs), tail)
  {
    hide DecodeList, DecodeEntries, DecodeFields;
    var s := (if ty.TAny? || ty.TIface? then [0] else [NIL_CODE]) + tail;
    assert s[1..] == tail;
  }

  lemma {:induction false} Simulation(c: Schema, d: Schema, heap: Heap, types: seq<Ty>, ty: Ty, v: Value, m: Memo,
                                      refs: seq<Struct>, prev: Value, tail: Bytes)
    requires WellTyped(c, heap) && ValidMemo(c, heap, m) && HasType(c, heap, ty, v) && Compatible(c, d)
    requires ValidRefs(d, refs)
    requires Encode(c, heap, ty, v, m).memo.types <= types
    ensures Decode(d, types, ty, Encode(c, heap, ty, v, m).bytes + tail, refs, prev)
         == AsRead(Expect(c, d, heap, ty, v, m, refs, prev), tail)
    decreases Unseen(heap, m.seen), v, 1
  {
    hide WellTyped, ValidMemo, ValidRefs, Grows, Extends, Compatible, Unseen, MemoType, NoDup, ShortKeys, EncodePtr,
         EncodeList, EncodeEntries, EncodeFields, ExpectPtr,
         ExpectList, ExpectEntries, DecodePtr, DecodeList, DecodeEntries, DecodeListHeader, ListHeader,
         DecodeString, EncodeString, DecodeInt, EncodeInt, AllHaveType;
    var e := Encode(c, heap, ty, v, m);
    var s := e.bytes + tail;
    match v
    case Int(i) => IntRoundTrip(i, tail);
    case Bool(b) => assert s[1..] == tail;
    case Str(b) => StringRoundTrip(b, tail);
    case Nil => DecodeNil(d, types, ty, refs, prev, tail);
    case Ptr(id) => SimulationPtr(c, d, heap, types, id, m, refs, prev, tail);
    case Any(t, w) => SimulationAny(c, d, heap, types, t, w, m, refs, tail);
    case List(es) => SimulationSlice(c, d, heap, types, ty.elem, es, m, refs, prev, tail);
    case Map(ks, vs) => SimulationMap(c, d, heap, types, ty.elem, ks, vs, m, refs, prev, tail);
  }

  lemma {:induction false} SimulationSlice(c: Schema, d: Schema, heap: Heap, types: seq<Ty>, ty: Ty, es: seq<Value>,
                                           m: Memo, refs: seq<Struct>, prev: Value, tail: Bytes)
    requires WellTyped(c, heap) && ValidMemo(c, heap, m) && HasType(c, heap, TSlice(ty), List(es)) && Compatible(c, d)
    requires ValidRefs(d, refs)
    requires EncodeList(c, heap, ty, es, 0, m).memo.types <= types
    ensures Decode(d, types, TSlice(ty), ListHeader(|es|) + EncodeList(c, heap, ty, es, 0, m).bytes + tail, refs, prev)
         == AsRead(ExpectList(c, d, heap, ty, es, 0, [], m, refs), tail)
    decreases Unseen(heap, m.seen), es, |es| + 1
  {
    hide WellTyped, ValidMemo, Compatible, Unseen, EncodeList, ExpectList, DecodeList, ListHeader, DecodeListHeader,
         AllHaveType;
    var b := EncodeList(c, heap, ty, es, 0, m).bytes;
    assert ListHeader(|es|) + b + tail == ListHeader(|es|) + (b + tail);
    ListHeaderRoundTrip(|es|, b + tail);
    SimulationList(c, d, heap, types, ty, es, 0, [], m, refs, tail);
  }

  lemma {:induction false} SimulationMap(c: Schema, d: Schema, heap: Heap, types: seq<Ty>, ty: Ty, ks: seq<Bytes>,
                                         vs: seq<Value>, m: Memo, refs: seq<Struct>, prev: Value, tail: Bytes)
    requires WellTyped(c, heap) && ValidMemo(c, heap, m) && HasType(c, heap, TMap(ty), Map(ks, vs)) && Compatible(c, d)
    requires ValidRefs(d, refs)
    requires EncodeEntries(c, heap, ty, ks, vs, 0, m).memo.types <= types
    ensures Decode(d, types, TMap(ty), ListHeader(2 * |ks|) + EncodeEntries(c, heap, ty, ks, vs, 0, m).bytes + tail,
      refs, prev)
         == AsRead(ExpectEntries(c, d, heap, ty, ks, vs, 0, [], ZeroOf(Field(ty)), m, refs), tail)
    decreases Unseen(heap, m.seen), vs, |vs| + 1
  {
    hide WellTyped, ValidMemo, Compatible, Unseen, EncodeEntries, ExpectEntries, DecodeEntries, ListHeader,
         DecodeListHeader,
         AllHaveType, ShortKeys, NoDup;
    var b := EncodeEntries(c, heap, ty, ks, vs, 0, m).bytes;
    assert ListHeader(2 * |ks|) + b + tail == ListHeader(2 * |ks|) + (b + tail);
    ListHeaderRoundTrip(2 * |ks|, b + tail);
    assert ks[..0] == [];
    SimulationEntries(c, d, heap, types, ty, ks, vs, 0, [], ZeroOf(Field(ty)), m, refs, tail);
  }

  lemma {:induction false} SimulationPtr(c: Schema, d: Schema, heap: Heap, types: seq<Ty>, id: Id, m: Memo,
                                         refs: seq<Struct>, prev: Value, tail: Bytes)
    requires WellTyped(c, heap) && ValidMemo(c, heap, m) && id in heap && Compatible(c, d) && ValidRefs(d, refs)
    requires EncodePtr(c, heap, id, m).memo.types <= types
    ensures DecodePtr(d, types, heap[id].name, EncodePtr(c, heap, id, m).bytes + tail, refs, prev)
         == AsRead(ExpectPtr(c, d, heap, id, m, refs, prev), tail)
    decreases Unseen(heap, m.seen), Ptr(id), 0
  {
    hide ValidMemo, Unseen, EncodeFields, ExpectFields, DecodeFields, EncodeUint, DecodeUint;
    var s := EncodePtr(c, heap, id, m).bytes + tail;
    SeenIsSmall(c, heap, m);
    if id in m.seen {
      var u := IndexOf(m.seen, id);
      assert s[1..] == EncodeUint(u) + tail;
      UintRoundTrip(u, tail);
    } else {
      MeetValid(c, heap, m, id);

      var x := heap[id];
      var r := EncodeFields(c, heap, c.structs[x.name], x.fields, 0, Meet(m, id));
      assert s[1..] == r.bytes + ([END_CODE] + tail);
      SimulationFields(c, d, heap, types, c.structs[x.name], x.fields, 0, |refs|, Meet(m, id),
                       refs + [ZeroStruct(d, x.name)], false, tail);
    }
  }

  lemma {:induction false} SimulationAny(c: Schema, d: Schema, heap: Heap, types: seq<Ty>, t: Ty, w: Value, m: Memo,
                                         refs: seq<Struct>, tail: Bytes)
    requires WellTyped(c, heap) && ValidMemo(c, heap, m) && t in c.registered && HasType(c, heap, t, w)
    requires Compatible(c, d)
    requires ValidRefs(d, refs)
    requires EncodeAny(c, heap, t, w, m).memo.types <= types
    ensures DecodeAny(d, types, EncodeAny(c, heap, t, w, m).bytes + tail, refs)
         == AsRead(ExpectAny(c, d, heap, t, w, m, refs), tail)
    decreases Unseen(heap, m.seen), w, 2
  {
    hide ValidRefs, Grows, WellTyped, ValidMemo, Compatible, Unseen, Encode, Expect, Decode, EncodeUint, DecodeUint,
         DecodeListHeader, HasType;
    var m1 := MemoType(m, t);
    MemoTypeValid(c, heap, m, t);
    SeenIsSmall(c, heap, m1);
    var r := Encode(c, heap, t, w, m1);
    var num := IndexOf(m1.types, t);
    var s := EncodeAny(c, heap, t, w, m).bytes + tail;
    assert s == ListHeader(2) + (EncodeUint(num) + (r.bytes + tail));
    ListHeaderRoundTrip(2, EncodeUint(num) + (r.bytes + tail));
    UintRoundTrip(num, r.bytes + tail);
    assert types[num] == t;
    Simulation(c, d, heap, types, t, w, m1, refs, ZeroOf(Field(t)), tail);
  }

  lemma {:induction false} SimulationList(c: Schema, d: Schema, heap: Heap, types: seq<Ty>, ty: Ty, es: seq<Value>,
                                          k: nat, done: seq<Value>, m: Memo, refs: seq<Struct>, tail: Bytes)
    requires WellTyped(c, heap) && ValidMemo(c, heap, m) && AllHaveType(c, heap, ty, es) && Compatible(c, d)
    requires ValidRefs(d, refs)
    requires k <= |es| && EncodeList(c, heap, ty, es, k, m).memo.types <= types
    ensures DecodeList(d, types, ty, |es| - k, done, EncodeList(c, heap, ty, es, k, m).bytes + tail, refs)
         == AsRead(ExpectList(c, d, heap, ty, es, k, done, m, refs), tail)
    decreases Unseen(heap, m.seen), es, |es| - k
  {
    hide WellTyped, ValidMemo, Compatible, Unseen, Encode, Expect, Decode, HasType;
    if k == |es| {
      assert [] + tail == tail;
    } else {
      var a := Encode(c, heap, ty, es[k], m);
      UnseenShrinks(heap, m.seen, a.memo.seen);
      var b := EncodeList(c, heap, ty, es, k + 1, a.memo);
      assert a.bytes + b.bytes + tail == a.bytes + (b.bytes + tail);
      Simulation(c, d, heap, types, ty, es[k], m, refs, ZeroOf(Field(ty)), b.bytes + tail);
      var o := Expect(c, d, heap, ty, es[k], m, refs, ZeroOf(Field(ty)));
      if o.Out? {
        SimulationList(c, d, heap, types, ty, es, k + 1, done + [o.value.v], a.memo, o.value.refs, tail);
      }
    }
  }

  lemma DecodeEntriesStep(d: Schema, types: seq<Ty>, ty: Ty, ks: seq<Bytes>, k: nat, vs: seq<Value>, cur: Value,
                          s: Bytes, refs: seq<Struct>, rest: Bytes)
    requires ValidRefs(d, refs) && NoDup(ks) && k < |ks| && |vs| == k
    requires DecodeString(s) == Ok(ks[k], rest)
    ensures DecodeEntries(d, types, ty, |ks| - k, ks[..k], vs, cur, s, refs)
         == match Decode(d, types, ty, rest, refs, cur)
            case Ok(x, rest') => DecodeEntries(d, types, ty, |ks| - (k + 1), ks[..k + 1], vs + [x.v], x.v, rest',
              x.refs)
            case Fail => Fail
            case Panic => Panic
  {
    hide Decode, DecodeString, IndexOf;
    assert ks[k] !in ks[..k] && ks[..k] + [ks[k]] == ks[..k + 1];
  }

  lemma EntryStep(c: Schema, d: Schema, heap: Heap, types: seq<Ty>, ty: Ty, ks: seq<Bytes>, vs: seq<Value>, k: nat,
                  done: seq<Value>, cur: Value, m: Memo, refs: seq<Struct>, tail: Bytes)
    requires WellTyped(c, heap) && ValidMemo(c, heap, m) && AllHaveType(c, heap, ty, vs) && Compatible(c, d)
    requires ValidRefs(d, refs)
    requires |ks| == |vs| && ShortKeys(ks) && NoDup(ks) && k < |ks| && |done| == k
    requires var a, o := Encode(c, heap, ty, vs[k], m), Expect(c, d, heap, ty, vs[k], m, refs, cur);
      var rest := EncodeEntries(c, heap, ty, ks, vs, k + 1, a.memo).bytes + tail;
      && Decode(d, types, ty, a.bytes + rest, refs, cur) == AsRead(o, rest)
      && (o.Out? ==>
            && ValidRefs(d, o.value.refs)
            && DecodeEntries(d, types, ty, |ks| - (k + 1), ks[..k + 1], done + [o.value.v], o.value.v, rest,
                 o.value.refs)
               == AsRead(ExpectEntries(c, d, heap, ty, ks, vs, k + 1, done + [o.value.v], o.value.v, a.memo,
                 o.value.refs), tail))
    ensures DecodeEntries(d, types, ty, |ks| - k, ks[..k], done, cur,
      EncodeEntries(c, heap, ty, ks, vs, k, m).bytes + tail, refs)
         == AsRead(ExpectEntries(c, d, heap, ty, ks, vs, k, done, cur, m, refs), tail)
  {
    hide WellTyped, ValidMemo, Compatible, Unseen, Encode, Expect, Decode, HasType, NoDup, ShortKeys, ValidRefs,
         DecodeEntries, EncodeEntries, EncodeString, DecodeString;
    var a := Encode(c, heap, ty, vs[k], m);
    var rest := EncodeEntries(c, heap, ty, ks, vs, k + 1, a.memo).bytes + tail;
    EncodeEntriesStep(c, heap, ty, ks, vs, k, m, tail);
    StringRoundTrip(ks[k], a.bytes + rest);
    DecodeEntriesStep(d, types, ty, ks, k, done, cur, EncodeEntries(c, heap, ty, ks, vs, k, m).bytes + tail, refs,
      a.bytes + rest);
  }

  lemma NoEntries(c: Schema, d: Schema, heap: Heap, types: seq<Ty>, ty: Ty, ks: seq<Bytes>, vs: seq<Value>,
                  done: seq<Value>, cur: Value, m: Memo, refs: seq<Struct>, tail: Bytes)
    requires WellTyped(c, heap) && ValidMemo(c, heap, m) && AllHaveType(c, heap, ty, vs) && ValidRefs(d, refs)
    requires |ks| == |vs| == |done| && ShortKeys(ks) && Compatible(c, d) && ValidRefs(d, refs)
    ensures DecodeEntries(d, types, ty, 0, ks[..|ks|], done, cur,
      EncodeEntries(c, heap, ty, ks, vs, |ks|, m).bytes + tail, refs)
         == AsRead(ExpectEntries(c, d, heap, ty, ks, vs, |ks|, done, cur, m, refs), tail)
  {
    hide WellTyped, ValidMemo, Encode, Decode, ShortKeys, HasType;
    assert [] + tail == tail && ks[..|ks|] == ks;
  }

  lemma {:induction false} SimulationEntries(c: Schema, d: Schema, heap: Heap, types: seq<Ty>, ty: Ty, ks: seq<Bytes>,
                                             vs: seq<Value>, k: nat,
                                             done: seq<Value>, cur: Value, m: Memo, refs: seq<Struct>, tail: Bytes)
    requires WellTyped(c, heap) && ValidMemo(c, heap, m) && AllHaveType(c, heap, ty, vs) && Compatible(c, d)
    requires ValidRefs(d, refs)
    requires |ks| == |vs| && ShortKeys(ks) && NoDup(ks) && k <= |ks| && |done| == k
    requires EncodeEntries(c, heap, ty, ks, vs, k, m).memo.types <= types
    ensures DecodeEntries(d, types, ty, |ks| - k, ks[..k], done, cur,
      EncodeEntries(c, heap, ty, ks, vs, k, m).bytes + tail, refs)
         == AsRead(ExpectEntries(c, d, heap, ty, ks, vs, k, done, cur, m, refs), tail)
    decreases Unseen(heap, m.seen), vs, |vs| - k
  {
    hide WellTyped, ValidMemo, Compatible, Unseen, Encode, Expect, Decode, HasType, NoDup, ShortKeys, ValidRefs,
         DecodeEntries, EncodeEntries, ExpectEntries;
    if k == |ks| {
      NoEntries(c, d, heap, types, ty, ks, vs, done, cur, m, refs, tail);
    } else {
      var a := Encode(c, heap, ty, vs[k], m);
      UnseenShrinks(heap, m.seen, a.memo.seen);
      var b := EncodeEntries(c, heap, ty, ks, vs, k + 1, a.memo);
      EncodeEntriesStep(c, heap, ty, ks, vs, k, m, tail);
      Simulation(c, d, heap, types, ty, vs[k], m, refs, cur, b.bytes + tail);
      var o := Expect(c, d, heap, ty, vs[k], m, refs, cur);
      if o.Out? {
        SimulationEntries(c, d, heap, types, ty, ks, vs, k + 1, done + [o.value.v], o.value.v, a.memo, o.value.refs,
          tail);
      }
      EntryStep(c, d, heap, types, ty, ks, vs, k, done, cur, m, refs, tail);
    }
  }

  /** A field that the decoder knows. */
  lemma KnownField(d: Schema, types: seq<Ty>, idx: nat, k: nat, s: Bytes, refs: seq<Struct>, any: bool, ty: Ty)
    requires ValidRefs(d, refs) && idx < |refs| && k < TWO_63
    requires Kept(d.structs[refs[idx].name], k) && d.structs[refs[idx].name][k] == Field(ty)
    ensures DecodeFields(d, types, idx, EncodeUint(k) + s, refs, any)
         == match Decode(d, types, ty, s, refs, refs[idx].fields[k])
            case Ok(x, rest) => DecodeFields(d, types, idx, rest, SetField(x.refs, idx, k, x.v), true)
            case Fail => Fail
            case Panic => Panic
  {
    hide Decode, DecodeUint, EncodeUint, Skip;
    UintRoundTrip(k, s);
    UintNotEnd(k);
  }

  /** A field that it does not know is skipped. */
  lemma UnknownField(d: Schema, types: seq<Ty>, idx: nat, k: nat, s: Bytes, refs: seq<Struct>, any: bool, rest: Bytes)
    requires ValidRefs(d, refs) && idx < |refs| && k < TWO_63
    requires !Kept(d.structs[refs[idx].name], k) && Skip(s) == Ok((), rest)
    ensures DecodeFields(d, types, idx, EncodeUint(k) + s, refs, any) == DecodeFields(d, types, idx, rest, refs, true)
  {
    hide Decode, DecodeUint, EncodeUint, Skip;
    UintRoundTrip(k, s);
    UintNotEnd(k);
  }

  lemma FieldBytes(c: Schema, heap: Heap, fts: seq<FieldTy>, fs: seq<Value>, k: nat, m: Memo, tail: Bytes)
    requires WellTyped(c, heap) && ValidMemo(c, heap, m) && FieldsHaveType(c, heap, fts, fs)
    requires k < |fs| < TWO_63 && !IsZero(fs[k])
    ensures fts[k].Field? && HasType(c, heap, fts[k].ty, fs[k])
    ensures var a := Encode(c, heap, fts[k].ty, fs[k], m);
      var b := EncodeFields(c, heap, fts, fs, k + 1, a.memo);
      && Unseen(heap, a.memo.seen) <= Unseen(heap, m.seen)
      && EncodeFields(c, heap, fts, fs, k, m).memo == b.memo
      && EncodeFields(c, heap, fts, fs, k, m).bytes + tail == EncodeUint(k) + (a.bytes + (b.bytes + tail))
  {
    hide WellTyped, ValidMemo, Encode, EncodeUint, HasType, Unseen;
    assert FieldHasType(c, heap, fts[k], fs[k]);
    var a := Encode(c, heap, fts[k].ty, fs[k], m);
    UnseenShrinks(heap, m.seen, a.memo.seen);
    var b := EncodeFields(c, heap, fts, fs, k + 1, a.memo);
    Regrouped(EncodeUint(k), a.bytes, b.bytes, tail);
  }

  lemma Regrouped(a: Bytes, b: Bytes, c: Bytes, d: Bytes)
    ensures a + b + c + d == a + (b + (c + d))
  {
  }

  function FieldsRead(o: Outcome<seq<Struct>>, any: bool, tail: Bytes): Read<(seq<Struct>, bool)> {
    match o
    case Out(refs) => Ok((refs, any), tail)
    case Crash => Panic
  }

  lemma {:induction false} SimulationFields(c: Schema, d: Schema, heap: Heap, types: seq<Ty>, fts: seq<FieldTy>,
                                            fs: seq<Value>, k: nat, idx: nat,
                                            m: Memo, refs: seq<Struct>, any: bool, tail: Bytes)
    requires WellTyped(c, heap) && ValidMemo(c, heap, m) && FieldsHaveType(c, heap, fts, fs) && Compatible(c, d)
    requires ValidRefs(d, refs)
    requires k <= |fs| < TWO_63 && idx < |refs| && CompatibleFields(fts, d.structs[refs[idx].name])
    requires EncodeFields(c, heap, fts, fs, k, m).memo.types <= types
    ensures DecodeFields(d, types, idx, EncodeFields(c, heap, fts, fs, k, m).bytes + ([END_CODE] + tail), refs, any)
         == FieldsRead(ExpectFields(c, d, heap, fts, fs, k, idx, m, refs), any || !AllZero(fs, k), tail)
    decreases Unseen(heap, m.seen), fs, |fs| - k
  {
    hide WellTyped, ValidMemo, Compatible, Unseen, Encode, Expect, Decode, EncodeUint, DecodeUint, HasType, Skip,
         DecodeFields;
    if k == |fs| {
      NoFields(c, heap, d, types, fts, fs, idx, m, refs, any, tail);
    } else if IsZero(fs[k]) {
      SimulationFields(c, d, heap, types, fts, fs, k + 1, idx, m, refs, any, tail);
    } else {
      FieldBytes(c, heap, fts, fs, k, m, [END_CODE] + tail);
      var a := Encode(c, heap, fts[k].ty, fs[k], m);
      var t := EncodeFields(c, heap, fts, fs, k + 1, a.memo).bytes + ([END_CODE] + tail);
      if Kept(d.structs[refs[idx].name], k) {
        Simulation(c, d, heap, types, fts[k].ty, fs[k], m, refs, refs[idx].fields[k], t);
        KnownField(d, types, idx, k, a.bytes + t, refs, any, fts[k].ty);
        var o := Expect(c, d, heap, fts[k].ty, fs[k], m, refs, refs[idx].fields[k]);
        if o.Out? {
          ValidSet(d, o.value.refs, idx, k, o.value.v);
          SimulationFields(c, d, heap, types, fts, fs, k + 1, idx, a.memo, SetField(o.value.refs, idx, k, o.value.v),
            true, tail);
        }
      } else {
        SkipExact(c, heap, fts[k].ty, fs[k], m, t);
        UnknownField(d, types, idx, k, a.bytes + t, refs, any, t);
        SimulationFields(c, d, heap, types, fts, fs, k + 1, idx, a.memo, refs, true, tail);
      }
    }
  }

  lemma NoFields(c: Schema, heap: Heap, d: Schema, types: seq<Ty>, fts: seq<FieldTy>, fs: seq<Value>, idx: nat,
                 m: Memo, refs: seq<Struct>, any: bool, tail: Bytes)
    requires WellTyped(c, heap) && ValidMemo(c, heap, m) && FieldsHaveType(c, heap, fts, fs) && |fs| < TWO_63
    requires ValidRefs(d, refs) && idx < |refs|
    ensures DecodeFields(d, types, idx, EncodeFields(c, heap, fts, fs, |fs|, m).bytes + ([END_CODE] + tail), refs, any)
      == Ok((refs, any), tail)
  {
    hide WellTyped, ValidMemo, Decode, HasType, Skip, DecodeUint;
    assert [] + ([END_CODE] + tail) == [END_CODE] + tail;
    assert ([END_CODE] + tail)[1..] == tail;
  }
}
