/** When what the decoder builds is a copy of the encoder's graph.

    A copy has every pointer lead to the struct at the position where its target was allocated,
    and every struct hold the same values with its pointers renamed in that way. Fields that the
    decoder does not know are left out of it. `Exact` shows that the decoder builds a copy
    exactly when the structs it builds are not all zero, hold no nil interface inside a list and
    no nil map value after another one, and every reference that it follows means the same
    struct to encoder and decoder. */
module CodecFaithful {
  import opened Basics
  import opened CodecBytes
  import opened CodecGraph
  import opened CodecDecode
  import opened CodecRoundTrip
  import opened CodecClosed

  // ------------------------------------------------------------------ copies

  /** The fields of a struct as the decoder knows them: with pointers renamed; zero if they were
      zero or unknown to the encoder. */
  function KeptFields(dts: seq<FieldTy>, fs: seq<Value>, all: seq<Id>): (r: seq<Value>)
    ensures |r| == |dts|
    ensures forall k :: 0 <= k < |dts| ==>
      r[k] == if Kept(dts, k) && k < |fs| && !IsZero(fs[k]) then Rename(fs[k], all) else ZeroOf(dts[k])
  {
    seq(|dts|, k requires 0 <= k < |dts| =>
      if Kept(dts, k) && k < |fs| && !IsZero(fs[k]) then Rename(fs[k], all) else ZeroOf(dts[k]))
  }

  function CopyOf(d: Schema, x: Struct, all: seq<Id>): Struct {
    if x.name < |d.structs| then Struct(x.name, KeptFields(d.structs[x.name], x.fields, all)) else x
  }

  predicate InHeap(heap: Heap, got: seq<Id>) {
    forall j :: 0 <= j < |got| ==> got[j] in heap
  }

  /** The copies of the structs in `got` from position `k` on. */
  function Copies(d: Schema, heap: Heap, got: seq<Id>, k: nat, all: seq<Id>): (r: seq<Struct>)
    requires k <= |got| && InHeap(heap, got)
    ensures |r| == |got| - k && forall i :: 0 <= i < |r| ==> r[i] == CopyOf(d, heap[got[k + i]], all)
  {
    seq(|got| - k, i requires 0 <= i < |got| - k => CopyOf(d, heap[got[k + i]], all))
  }

  // --------------------------------------------------------- what can be copied

  /** No nil interface inside a list, and in a map the nil values come first. */
  predicate GoodValue(ty: Ty, v: Value)
    decreases v
  {
    match v
    case Nil => !ty.TIface?
    case Any(t, w) => GoodValue(t, w)
    case List(es) => ty.TSlice? && AllGood(ty.elem, es, 0)
    case Map(_, vs) => ty.TMap? && AllGood(ty.elem, vs, 0) && NilsFirst(ty.elem, vs, 0)
    case _ => true
  }

  predicate AllGood(ty: Ty, vs: seq<Value>, k: nat)
    decreases vs, 0
  {
    forall i :: k <= i < |vs| ==> GoodValue(ty, vs[i])
  }

  predicate NilsFirst(ty: Ty, vs: seq<Value>, k: nat) {
    forall i :: k <= i < |vs| && 0 < i && vs[i].Nil? && !ty.TAny? ==> vs[i - 1].Nil?
  }

  predicate GoodFields(dts: seq<FieldTy>, fs: seq<Value>, k: nat) {
    forall i :: k <= i < |fs| && Kept(dts, i) && !IsZero(fs[i]) ==> GoodValue(dts[i].ty, fs[i])
  }

  predicate GoodStruct(d: Schema, x: Struct) {
    x.name < |d.structs| && !AllZero(x.fields, 0) && GoodFields(d.structs[x.name], x.fields, 0)
  }

  predicate GoodFrom(d: Schema, heap: Heap, got: seq<Id>, k: nat) {
    forall j :: k <= j < |got| ==> got[j] in heap && GoodStruct(d, heap[got[j]])
  }

  // -------------------------------------------------------- what is allocated

  /** The structs that the decoder has allocated, in order, and whether every reference that it
      has followed so far meant the same struct to both sides. */
  datatype Trail = Trail(got: seq<Id>, aligned: bool)

  /** What is allocated was met, and only once. */
  predicate GotFits(heap: Heap, m: Memo, got: seq<Id>) {
    NoDup(got) && InHeap(heap, got) && forall j :: 0 <= j < |got| ==> got[j] in m.seen
  }

  lemma GotMeets(heap: Heap, m: Memo, got: seq<Id>, id: Id)
    requires GotFits(heap, m, got) && id in heap && id !in m.seen
    ensures GotFits(heap, Meet(m, id), got + [id])
  {
  }

  lemma GotGrows(heap: Heap, m: Memo, m': Memo, got: seq<Id>)
    requires GotFits(heap, m, got) && Extends(m, m')
    ensures GotFits(heap, m', got)
  {
    assert forall x :: x in m.seen ==> x in m'.seen;
  }

  function Follow(c: Schema, d: Schema, heap: Heap, ty: Ty, v: Value, m: Memo, got: seq<Id>): (r: Trail)
    requires WellTyped(c, heap) && ValidMemo(c, heap, m) && HasType(c, heap, ty, v) && GotFits(heap, m, got)
    ensures got <= r.got && GotFits(heap, Encode(c, heap, ty, v, m).memo, r.got)
    decreases Unseen(heap, m.seen), v, 1
  {
    hide WellTyped, ValidMemo, GotFits, Unseen, EncodePtr, EncodeAny, EncodeList, EncodeEntries, NoDup, ShortKeys,
         AllHaveType;
    match v
    case Ptr(id) => FollowPtr(c, d, heap, id, m, got)
    case Any(t, w) => FollowAny(c, d, heap, t, w, m, got)
    case List(es) => FollowList(c, d, heap, ty.elem, es, 0, m, got)
    case Map(ks, vs) => FollowEntries(c, d, heap, ty.elem, ks, vs, 0, m, got)
    case _ => Trail(got, true)
  }

  function FollowAny(c: Schema, d: Schema, heap: Heap, t: Ty, w: Value, m: Memo, got: seq<Id>): (r: Trail)
    requires WellTyped(c, heap) && ValidMemo(c, heap, m) && t in c.registered && HasType(c, heap, t, w)
    requires GotFits(heap, m, got)
    ensures got <= r.got && GotFits(heap, EncodeAny(c, heap, t, w, m).memo, r.got)
    decreases Unseen(heap, m.seen), w, 2
  {
    hide WellTyped, ValidMemo, GotFits, Unseen, Encode, HasType;
    MemoTypeValid(c, heap, m, t);
    GotGrows(heap, m, MemoType(m, t), got);
    Follow(c, d, heap, t, w, MemoType(m, t), got)
  }

  /** A reference is the number of a struct among those met; to the decoder it is a position among
      those allocated. */
  function FollowPtr(c: Schema, d: Schema, heap: Heap, id: Id, m: Memo, got: seq<Id>): (r: Trail)
    requires WellTyped(c, heap) && ValidMemo(c, heap, m) && id in heap && GotFits(heap, m, got)
    ensures got <= r.got && GotFits(heap, EncodePtr(c, heap, id, m).memo, r.got)
    ensures id !in m.seen ==> got + [id] <= r.got
    decreases Unseen(heap, m.seen), Ptr(id), 0
  {
    hide ValidMemo, GotFits, Unseen, EncodeFields;
    if id in m.seen then
      var u := IndexOf(m.seen, id);
      Trail(got, u < |got| && got[u] == id)
    else
      MeetValid(c, heap, m, id);
      GotMeets(heap, m, got, id);
      var x := heap[id];
      var dts := if x.name < |d.structs| then d.structs[x.name] else [];
      FollowFields(c, d, heap, dts, c.structs[x.name], x.fields, 0, Meet(m, id), got + [id])
  }

  function FollowFields(c: Schema, d: Schema, heap: Heap, dts: seq<FieldTy>, fts: seq<FieldTy>, fs: seq<Value>, k: nat,
                        m: Memo, got: seq<Id>): (r: Trail)
    requires WellTyped(c, heap) && ValidMemo(c, heap, m) && FieldsHaveType(c, heap, fts, fs) && k <= |fs| < TWO_63
    requires GotFits(heap, m, got)
    ensures got <= r.got && GotFits(heap, EncodeFields(c, heap, fts, fs, k, m).memo, r.got)
    decreases Unseen(heap, m.seen), fs, |fs| - k
  {
    hide WellTyped, ValidMemo, GotFits, Unseen, Encode, HasType;
    if k == |fs| then Trail(got, true)
    else if IsZero(fs[k]) then FollowFields(c, d, heap, dts, fts, fs, k + 1, m, got)
    else
      assert FieldHasType(c, heap, fts[k], fs[k]);
      var a := Encode(c, heap, fts[k].ty, fs[k], m).memo;
      UnseenShrinks(heap, m.seen, a.seen);
      if !Kept(dts, k) then
        GotGrows(heap, m, a, got);
        FollowFields(c, d, heap, dts, fts, fs, k + 1, a, got)
      else
        var r := Follow(c, d, heap, fts[k].ty, fs[k], m, got);
        var s := FollowFields(c, d, heap, dts, fts, fs, k + 1, a, r.got);
        Trail(s.got, r.aligned && s.aligned)
  }

  function FollowList(c: Schema, d: Schema, heap: Heap, ty: Ty, es: seq<Value>, k: nat, m: Memo,
                      got: seq<Id>): (r: Trail)
    requires WellTyped(c, heap) && ValidMemo(c, heap, m) && AllHaveType(c, heap, ty, es) && k <= |es|
    requires GotFits(heap, m, got)
    ensures got <= r.got && GotFits(heap, EncodeList(c, heap, ty, es, k, m).memo, r.got)
    decreases Unseen(heap, m.seen), es, |es| - k
  {
    hide WellTyped, ValidMemo, GotFits, Unseen, Encode, HasType, AllHaveType;
    if k == |es| then Trail(got, true)
    else
      ElementAt(c, heap, ty, es, k);
      var a := Encode(c, heap, ty, es[k], m).memo;
      UnseenShrinks(heap, m.seen, a.seen);
      var r := Follow(c, d, heap, ty, es[k], m, got);
      var s := FollowList(c, d, heap, ty, es, k + 1, a, r.got);
      Trail(s.got, r.aligned && s.aligned)
  }

  function FollowEntries(c: Schema, d: Schema, heap: Heap, ty: Ty, ks: seq<Bytes>, vs: seq<Value>, k: nat, m: Memo,
                         got: seq<Id>): (r: Trail)
    requires WellTyped(c, heap) && ValidMemo(c, heap, m) && AllHaveType(c, heap, ty, vs) && |ks| == |vs|
    requires ShortKeys(ks) && k <= |ks| && GotFits(heap, m, got)
    ensures got <= r.got && GotFits(heap, EncodeEntries(c, heap, ty, ks, vs, k, m).memo, r.got)
    decreases Unseen(heap, m.seen), vs, |vs| - k
  {
    hide WellTyped, ValidMemo, GotFits, Unseen, Encode, HasType, ShortKeys, AllHaveType;
    if k == |ks| then Trail(got, true)
    else
      ElementAt(c, heap, ty, vs, k);
      var a := Encode(c, heap, ty, vs[k], m).memo;
      UnseenShrinks(heap, m.seen, a.seen);
      var r := Follow(c, d, heap, ty, vs[k], m, got);
      var s := FollowEntries(c, d, heap, ty, ks, vs, k + 1, a, r.got);
      Trail(s.got, r.aligned && s.aligned)
  }

  // -------------------------------------------------------------- exactly when

  /** The decoder's structs are those allocated, each of its type. */
  predicate Fits(d: Schema, heap: Heap, got: seq<Id>, refs: seq<Struct>) {
    && |refs| == |got| && ValidRefs(d, refs) && InHeap(heap, got)
    && forall j :: 0 <= j < |refs| ==> refs[j].name == heap[got[j]].name
  }

  /** The outcome is the value with its pointers renamed, and copies of what was allocated. */
  predicate IsCopy(d: Schema, heap: Heap, refs: seq<Struct>, got: seq<Id>, got': seq<Id>, all: seq<Id>, v: Value,
                   o: Outcome<Dec>)
    requires got <= got' && InHeap(heap, got')
  {
    o.Out? && o.value.v == v && o.value.refs == refs + Copies(d, heap, got', |got|, all)
  }

  lemma FitsIs(d: Schema, heap: Heap, got: seq<Id>, refs: seq<Struct>)
    requires Fits(d, heap, got, refs)
    ensures |refs| == |got| && ValidRefs(d, refs) && InHeap(heap, got)
  {
  }

  lemma GotFitsIs(heap: Heap, m: Memo, got: seq<Id>)
    requires GotFits(heap, m, got)
    ensures InHeap(heap, got) && NoDup(got)
  {
  }

  lemma CopiesSplit(d: Schema, heap: Heap, got: seq<Id>, got1: seq<Id>, got2: seq<Id>, all: seq<Id>)
    requires got <= got1 <= got2 && InHeap(heap, got2)
    ensures InHeap(heap, got1) && InHeap(heap, got)
    ensures Copies(d, heap, got2, |got|, all) == Copies(d, heap, got1, |got|, all) + Copies(d, heap, got2, |got1|, all)
  {
    hide CopyOf;
    assert forall j :: 0 <= j < |got1| ==> got1[j] == got2[j];
  }

  lemma NoCopies(d: Schema, heap: Heap, got: seq<Id>, refs: seq<Struct>, all: seq<Id>)
    requires InHeap(heap, got)
    ensures refs + Copies(d, heap, got, |got|, all) == refs && GoodFrom(d, heap, got, |got|)
  {
  }

  lemma GoodFromSplit(d: Schema, heap: Heap, got1: seq<Id>, got2: seq<Id>, k: nat)
    requires k <= |got1| && got1 <= got2
    ensures GoodFrom(d, heap, got2, k) <==> GoodFrom(d, heap, got1, k) && GoodFrom(d, heap, got2, |got1|)
  {
    hide GoodStruct;
    assert forall j :: 0 <= j < |got1| ==> got1[j] == got2[j];
  }

  lemma GoodSplit(ty: Ty, vs: seq<Value>, k: nat)
    requires k < |vs|
    ensures AllGood(ty, vs, k) <==> GoodValue(ty, vs[k]) && AllGood(ty, vs, k + 1)
    ensures NilsFirst(ty, vs, k) <==> (k > 0 && vs[k].Nil? && !ty.TAny? ==> vs[k - 1].Nil?) && NilsFirst(ty, vs, k + 1)
  {
    hide GoodValue;
  }

  lemma NoneLeft(ty: Ty, vs: seq<Value>)
    ensures AllGood(ty, vs, |vs|) && NilsFirst(ty, vs, |vs|)
  {
  }

  /** A value and the rest of a list are both copied exactly if the whole is. */
  lemma CopyStep(d: Schema, heap: Heap, vs: seq<Value>, k: nat, done: seq<Value>, got: seq<Id>, got1: seq<Id>,
                 got2: seq<Id>, all: seq<Id>, refs: seq<Struct>, a: Dec, elems: seq<Value>, refs2: seq<Struct>)
    requires got <= got1 <= got2 && InHeap(heap, got2) && |refs| == |got| && |a.refs| == |got1| && k < |vs|
    requires refs <= a.refs <= refs2 && done + [a.v] <= elems
    ensures InHeap(heap, got1)
    ensures elems == done + RenameFrom(vs, k, all) && refs2 == refs + Copies(d, heap, got2, |got|, all)
       <==> && a.v == Rename(vs[k], all) && a.refs == refs + Copies(d, heap, got1, |got|, all)
            && elems == (done + [a.v]) + RenameFrom(vs, k + 1, all)
                 && refs2 == a.refs + Copies(d, heap, got2, |got1|, all)
  {
    hide Rename, Copies;
    CopiesSplit(d, heap, got, got1, got2, all);
    var c1, c2 := Copies(d, heap, got1, |got|, all), Copies(d, heap, got2, |got1|, all);
    CopiesLength(d, heap, got1, |got|, all);
    assert refs + (c1 + c2) == (refs + c1) + c2;
    var v := Rename(vs[k], all);
    RenameFirst(vs, k, all);
    assert done + ([v] + RenameFrom(vs, k + 1, all)) == (done + [v]) + RenameFrom(vs, k + 1, all);
    if elems == done + RenameFrom(vs, k, all) && refs2 == refs + (c1 + c2) {
      assert elems[|done|] == v;
      assert a.refs == refs2[..|a.refs|] == refs + c1;
    }
  }

  lemma CopiesLength(d: Schema, heap: Heap, got: seq<Id>, k: nat, all: seq<Id>)
    requires k <= |got| && InHeap(heap, got)
    ensures |Copies(d, heap, got, k, all)| == |got| - k
  {
  }

  lemma RenameFirst(vs: seq<Value>, k: nat, all: seq<Id>)
    requires k < |vs|
    ensures RenameFrom(vs, k, all) == [Rename(vs[k], all)] + RenameFrom(vs, k + 1, all)
  {
    hide Rename;
  }

  /** Encoder and decoder are at the same point. */
  predicate Ready(c: Schema, d: Schema, heap: Heap, m: Memo, got: seq<Id>, refs: seq<Struct>) {
    WellTyped(c, heap) && ValidMemo(c, heap, m) && Compatible(c, d) && Fits(d, heap, got, refs) && GotFits(heap, m, got)
  }

  lemma ReadyParts(c: Schema, d: Schema, heap: Heap, m: Memo, got: seq<Id>, refs: seq<Struct>)
    requires Ready(c, d, heap, m, got, refs)
    ensures WellTyped(c, heap) && ValidMemo(c, heap, m) && Compatible(c, d) && ValidRefs(d, refs)
    ensures GotFits(heap, m, got)
    ensures |refs| == |got| && InHeap(heap, got) && NoDup(got)
  {
    hide WellTyped, ValidMemo, Compatible;
  }

  lemma ReadyAfter(c: Schema, d: Schema, heap: Heap, m: Memo, got: seq<Id>, refs: seq<Struct>)
    requires WellTyped(c, heap) && ValidMemo(c, heap, m) && Compatible(c, d) && Fits(d, heap, got, refs)
    requires GotFits(heap, m, got)
    ensures Ready(c, d, heap, m, got, refs)
  {
    hide WellTyped, ValidMemo, Compatible, Fits, GotFits;
  }

  /** The outcome of a step fits what it has allocated. */
  predicate OutFits(d: Schema, heap: Heap, got: seq<Id>, o: Outcome<Dec>) {
    o.Out? ==> Fits(d, heap, got, o.value.refs) && (o.value.v.Ptr? ==> o.value.v.id < |o.value.refs|)
  }

  lemma NilZero(c: Schema, heap: Heap, t: Ty, w: Value)
    requires HasType(c, heap, t, w) && w.Nil? && !t.TAny?
    ensures ZeroOf(Field(t)) == Nil
  {
  }

  lemma ZeroNoPtr(f: FieldTy)
    ensures !ZeroOf(f).Ptr?
  {
  }

  // ------------------------------------------------------ what outcomes fit

  lemma {:induction false} FitsValue(c: Schema, d: Schema, heap: Heap, ty: Ty, v: Value, m: Memo, got: seq<Id>,
                                     refs: seq<Struct>, prev: Value)
    requires Ready(c, d, heap, m, got, refs) && HasType(c, heap, ty, v) && (prev.Ptr? ==> prev.id < |refs|)
    ensures OutFits(d, heap, Follow(c, d, heap, ty, v, m, got).got, Expect(c, d, heap, ty, v, m, refs, prev))
    decreases Unseen(heap, m.seen), v, 1
  {
    hide WellTyped, ValidMemo, Compatible, ValidRefs, Fits, GotFits, Ready, Unseen, EncodePtr, EncodeList,
         EncodeEntries,
         AllHaveType, NoDup, ShortKeys,
         ExpectPtr, ExpectAny, ExpectList, ExpectEntries, FollowPtr, FollowList, FollowEntries, InHeap;
    ReadyParts(c, d, heap, m, got, refs);
    FitsReady(c, d, heap, m, got, refs);
    match v
    case Ptr(id) => FitsPtr(c, d, heap, id, m, got, refs, prev);
    case Any(t, w) =>
      MemoTypeValid(c, heap, m, t);
      GotGrows(heap, m, MemoType(m, t), got);
      FitsAny(c, d, heap, t, w, m, got, refs);
    case List(es) => FitsList(c, d, heap, ty.elem, es, 0, [], m, got, refs);
    case Map(ks, vs) =>
      ZeroNoPtr(Field(ty.elem));
      FitsEntries(c, d, heap, ty.elem, ks, vs, 0, [], ZeroOf(Field(ty.elem)), m, got, refs);
    case _ =>
  }

  lemma {:induction false} FitsAny(c: Schema, d: Schema, heap: Heap, t: Ty, w: Value, m: Memo, got: seq<Id>,
                                   refs: seq<Struct>)
    requires Ready(c, d, heap, m, got, refs) && t in c.registered && HasType(c, heap, t, w)
    requires ValidMemo(c, heap, MemoType(m, t)) && GotFits(heap, MemoType(m, t), got)
    ensures OutFits(d, heap, Follow(c, d, heap, t, w, MemoType(m, t), got).got, ExpectAny(c, d, heap, t, w, m, refs))
    decreases Unseen(heap, m.seen), w, 2
  {
    hide WellTyped, ValidMemo, Compatible, ValidRefs, Fits, GotFits, Ready, Unseen, Encode, HasType, Expect, Follow,
         MemoType;
    ReadyParts(c, d, heap, m, got, refs);
    ReadyIs(c, d, heap, m, got, refs);
    ReadyIs(c, d, heap, MemoType(m, t), got, refs);
    assert MemoType(m, t).seen == m.seen by { MemoTypeSeen(m, t); }
    ZeroNoPtr(Field(t));
    FitsValue(c, d, heap, t, w, MemoType(m, t), got, refs, ZeroOf(Field(t)));
  }

  lemma {:induction false} FitsPtr(c: Schema, d: Schema, heap: Heap, id: Id, m: Memo, got: seq<Id>, refs: seq<Struct>,
                                   prev: Value)
    requires Ready(c, d, heap, m, got, refs) && id in heap && (prev.Ptr? ==> prev.id < |refs|)
    ensures OutFits(d, heap, FollowPtr(c, d, heap, id, m, got).got, ExpectPtr(c, d, heap, id, m, refs, prev))
    decreases Unseen(heap, m.seen), Ptr(id), 0
  {
    hide *;
    ReadyParts(c, d, heap, m, got, refs);
    if id in m.seen {
      RefFits(c, d, heap, id, m, got, refs, prev);
    } else {
      MeetValid(c, heap, m, id);
      StructAt(c, heap, id);
      CompatibleAt(c, d, heap[id].name);
      GotMeets(heap, m, got, id);
      ReadyMeets(c, d, heap, m, got, refs, id);
      StartReading(c, d, heap, id, refs);
      var x := heap[id];
      var refs0 := refs + [ZeroStruct(d, x.name)];
      FollowStart(c, d, heap, id, m, got);
      ReadyParts(c, d, heap, Meet(m, id), got + [id], refs0);
      ExpectStart(c, d, heap, id, m, refs, prev);
      FitsFields(c, d, heap, d.structs[x.name], c.structs[x.name], x.fields, 0, |refs|, Meet(m, id), got + [id], refs0);
      PtrFits(d, heap, FollowPtr(c, d, heap, id, m, got).got, refs, x, prev,
              ExpectFields(c, d, heap, c.structs[x.name], x.fields, 0, |refs|, Meet(m, id), refs0));
    }
  }

  lemma RefFits(c: Schema, d: Schema, heap: Heap, id: Id, m: Memo, got: seq<Id>, refs: seq<Struct>, prev: Value)
    requires Ready(c, d, heap, m, got, refs) && id in heap && id in m.seen
    ensures OutFits(d, heap, FollowPtr(c, d, heap, id, m, got).got, ExpectPtr(c, d, heap, id, m, refs, prev))
  {
    hide WellTyped, ValidMemo, Compatible, ValidRefs;
  }

  lemma StartReading(c: Schema, d: Schema, heap: Heap, id: Id, refs: seq<Struct>)
    requires WellTyped(c, heap) && id in heap && heap[id].name < |c.structs| && heap[id].name < |d.structs|
    requires CompatibleFields(c.structs[heap[id].name], d.structs[heap[id].name]) && |heap[id].fields| < TWO_63
    ensures ZeroStruct(d, heap[id].name).name == heap[id].name
    ensures |ZeroStruct(d, heap[id].name).fields| == |d.structs[heap[id].name]|
    ensures Reading(d, d.structs[heap[id].name], c.structs[heap[id].name], heap[id].fields, 0, |refs|,
      refs + [ZeroStruct(d, heap[id].name)])
  {
    hide WellTyped, CompatibleFields;
  }

  lemma PtrFits(d: Schema, heap: Heap, got: seq<Id>, refs: seq<Struct>, x: Struct, prev: Value, o: Outcome<seq<Struct>>)
    requires (prev.Ptr? ==> prev.id < |refs|) && (o.Out? ==> Fits(d, heap, got, o.value)) && |refs| < |got|
    ensures OutFits(d, heap, got, PtrAfter(o, x, |refs|, prev))
  {
    hide AllZero, ValidRefs;
  }

  lemma {:induction false} FitsFields(c: Schema, d: Schema, heap: Heap, dts: seq<FieldTy>, fts: seq<FieldTy>,
                                      fs: seq<Value>, k: nat, idx: nat, m: Memo, got: seq<Id>, refs: seq<Struct>)
    requires Ready(c, d, heap, m, got, refs) && FieldsHaveType(c, heap, fts, fs)
    requires Reading(d, dts, fts, fs, k, idx, refs)
    ensures var f, o := FollowFields(c, d, heap, dts, fts, fs, k, m, got),
      ExpectFields(c, d, heap, fts, fs, k, idx, m, refs);
      o.Out? ==> Fits(d, heap, f.got, o.value)
    decreases Unseen(heap, m.seen), fs, |fs| - k
  {
    hide *;
    ReadyParts(c, d, heap, m, got, refs);
    ReadingIs(d, dts, fts, fs, k, idx, refs);
    if k == |fs| {
      FitsReady(c, d, heap, m, got, refs);
      NoFieldsLeft(c, d, heap, dts, fts, fs, idx, m, got, refs);
    } else if IsZero(fs[k]) {
      ZeroStep(c, d, heap, dts, fts, fs, k, idx, m, got, refs);
      FitsFields(c, d, heap, dts, fts, fs, k + 1, idx, m, got, refs);
    } else {
      FieldAt(c, heap, fts, fs, k, m);
      var a := Encode(c, heap, fts[k].ty, fs[k], m).memo;
      if !Kept(dts, k) {
        SkipStep(c, d, heap, dts, fts, fs, k, idx, m, got, refs);
        FitsFields(c, d, heap, dts, fts, fs, k + 1, idx, a, got, refs);
      } else {
        KeptIs(dts, k);
        FieldUnfold(c, d, heap, dts, fts, fs, k, idx, m, got, refs);
        var r := Follow(c, d, heap, fts[k].ty, fs[k], m, got);
        var o := Expect(c, d, heap, fts[k].ty, fs[k], m, refs, refs[idx].fields[k]);
        ZeroNoPtr(dts[k]);
        FitsValue(c, d, heap, fts[k].ty, fs[k], m, got, refs, refs[idx].fields[k]);
        if o.Out? {
          OutFitsIs(d, heap, r.got, o);
          FitsSet(d, heap, r.got, o.value.refs, idx, k, o.value.v);
          var refs1 := SetField(o.value.refs, idx, k, o.value.v);
          ReadyAfter(c, d, heap, a, r.got, refs1);
          FitsFields(c, d, heap, dts, fts, fs, k + 1, idx, a, r.got, refs1);
        }
      }
    }
  }

  lemma {:induction false} FitsList(c: Schema, d: Schema, heap: Heap, ty: Ty, es: seq<Value>, k: nat, done: seq<Value>,
                                    m: Memo, got: seq<Id>, refs: seq<Struct>)
    requires Ready(c, d, heap, m, got, refs) && AllHaveType(c, heap, ty, es) && k <= |es|
    ensures OutFits(d, heap, FollowList(c, d, heap, ty, es, k, m, got).got,
      ExpectList(c, d, heap, ty, es, k, done, m, refs))
    decreases Unseen(heap, m.seen), es, |es| - k
  {
    hide *;
    ReadyParts(c, d, heap, m, got, refs);
    if k == |es| {
      ListEnds(c, d, heap, ty, es, done, m, got, refs);
      FitsReady(c, d, heap, m, got, refs);
      ListFits(d, heap, got, refs, List(done));
    } else {
      ListFollow(c, d, heap, ty, es, k, m, got);
      ListExpect(c, d, heap, ty, es, k, done, m, refs);
      var a, r := Encode(c, heap, ty, es[k], m).memo, Follow(c, d, heap, ty, es[k], m, got);
      var o := Expect(c, d, heap, ty, es[k], m, refs, ZeroOf(Field(ty)));
      ZeroNoPtr(Field(ty));
      FitsValue(c, d, heap, ty, es[k], m, got, refs, ZeroOf(Field(ty)));
      if o.Out? {
        OutFitsIs(d, heap, r.got, o);
        ReadyAfter(c, d, heap, a, r.got, o.value.refs);
        FitsList(c, d, heap, ty, es, k + 1, done + [o.value.v], a, r.got, o.value.refs);
      } else {
        CrashFits(d, heap, FollowList(c, d, heap, ty, es, k, m, got).got);
      }
    }
  }

  lemma ListFits(d: Schema, heap: Heap, got: seq<Id>, refs: seq<Struct>, v: Value)
    requires Fits(d, heap, got, refs) && !v.Ptr?
    ensures OutFits(d, heap, got, Out(Dec(v, refs)))
  {
    hide Fits;
  }

  lemma CrashFits(d: Schema, heap: Heap, got: seq<Id>)
    ensures OutFits(d, heap, got, Crash)
  {
  }

  lemma {:induction false} FitsEntries(c: Schema, d: Schema, heap: Heap, ty: Ty, ks: seq<Bytes>, vs: seq<Value>,
                                       k: nat, done: seq<Value>, cur: Value, m: Memo, got: seq<Id>, refs: seq<Struct>)
    requires Ready(c, d, heap, m, got, refs) && AllHaveType(c, heap, ty, vs) && |ks| == |vs| && ShortKeys(ks)
    requires k <= |vs| && (cur.Ptr? ==> cur.id < |refs|)
    ensures OutFits(d, heap, FollowEntries(c, d, heap, ty, ks, vs, k, m, got).got,
      ExpectEntries(c, d, heap, ty, ks, vs, k, done, cur, m, refs))
    decreases Unseen(heap, m.seen), vs, |vs| - k
  {
    hide *;
    ReadyParts(c, d, heap, m, got, refs);
    if k == |vs| {
      EntriesEnd(c, d, heap, ty, ks, vs, done, cur, m, got, refs);
      FitsReady(c, d, heap, m, got, refs);
      ListFits(d, heap, got, refs, Map(ks, done));
    } else {
      EntriesFollow(c, d, heap, ty, ks, vs, k, m, got);
      EntriesExpect(c, d, heap, ty, ks, vs, k, done, cur, m, refs);
      var a, r := Encode(c, heap, ty, vs[k], m).memo, Follow(c, d, heap, ty, vs[k], m, got);
      var o := Expect(c, d, heap, ty, vs[k], m, refs, cur);
      FitsValue(c, d, heap, ty, vs[k], m, got, refs, cur);
      if o.Out? {
        OutFitsIs(d, heap, r.got, o);
        ReadyAfter(c, d, heap, a, r.got, o.value.refs);
        FitsEntries(c, d, heap, ty, ks, vs, k + 1, done + [o.value.v], o.value.v, a, r.got, o.value.refs);
      } else {
        CrashFits(d, heap, FollowEntries(c, d, heap, ty, ks, vs, k, m, got).got);
      }
    }
  }

  // ---------------------------------------------------------------- the claim

  lemma {:induction false} Exact(c: Schema, d: Schema, heap: Heap, ty: Ty, v: Value, m: Memo, got: seq<Id>,
                                 refs: seq<Struct>, prev: Value, all: seq<Id>)
    requires Ready(c, d, heap, m, got, refs) && HasType(c, heap, ty, v)
    requires v.Nil? && !ty.TAny? ==> prev == Nil
    requires prev.Ptr? ==> prev.id < |refs|
    requires Follow(c, d, heap, ty, v, m, got).got <= all && NoDup(all)
    ensures var f, o := Follow(c, d, heap, ty, v, m, got), Expect(c, d, heap, ty, v, m, refs, prev);
      GoodValue(ty, v) && f.aligned && GoodFrom(d, heap, f.got, |got|) <==>
        IsCopy(d, heap, refs, got, f.got, all, Rename(v, all), o)
    decreases Unseen(heap, m.seen), v, 1
  {
    hide WellTyped, ValidMemo, Compatible, ValidRefs, Fits, GotFits, Ready, Unseen, EncodePtr, EncodeList,
         EncodeEntries,
         AllHaveType, NoDup, ShortKeys,
         ExpectPtr, ExpectAny, ExpectList, ExpectEntries, FollowPtr, FollowList, FollowEntries, AllGood, NilsFirst,
           RenameFrom, Copies, GoodFrom, InHeap;
    ReadyParts(c, d, heap, m, got, refs);
    match v
    case Ptr(id) => ExactPtr(c, d, heap, id, m, got, refs, prev, all);
    case Any(t, w) =>
      MemoTypeValid(c, heap, m, t);
      GotGrows(heap, m, MemoType(m, t), got);
      ExactAny(c, d, heap, t, w, m, got, refs, all);
    case List(es) => ExactList(c, d, heap, ty.elem, es, 0, [], m, got, refs, all);
    case Map(ks, vs) => ExactEntries(c, d, heap, ty.elem, ks, vs, 0, [], ZeroOf(Field(ty.elem)), m, got, refs, all);
    case _ =>
      NoCopies(d, heap, got, refs, all);
  }

  lemma FitsReady(c: Schema, d: Schema, heap: Heap, m: Memo, got: seq<Id>, refs: seq<Struct>)
    requires Ready(c, d, heap, m, got, refs)
    ensures Fits(d, heap, got, refs)
  {
    hide *;
    ReadyIs(c, d, heap, m, got, refs);
  }

  lemma ReadyIs(c: Schema, d: Schema, heap: Heap, m: Memo, got: seq<Id>, refs: seq<Struct>)
    ensures Ready(c, d, heap, m, got, refs) <==>
      WellTyped(c, heap) && ValidMemo(c, heap, m) && Compatible(c, d) && Fits(d, heap, got, refs)
        && GotFits(heap, m, got)
  {
    hide WellTyped, ValidMemo, Compatible, Fits, GotFits;
  }

  lemma {:induction false} ExactAny(c: Schema, d: Schema, heap: Heap, t: Ty, w: Value, m: Memo, got: seq<Id>,
                                    refs: seq<Struct>, all: seq<Id>)
    requires Ready(c, d, heap, m, got, refs) && t in c.registered && HasType(c, heap, t, w)
    requires ValidMemo(c, heap, MemoType(m, t)) && GotFits(heap, MemoType(m, t), got)
    requires Follow(c, d, heap, t, w, MemoType(m, t), got).got <= all && NoDup(all)
    ensures var f, o := Follow(c, d, heap, t, w, MemoType(m, t), got), ExpectAny(c, d, heap, t, w, m, refs);
      GoodValue(t, w) && f.aligned && GoodFrom(d, heap, f.got, |got|) <==>
        IsCopy(d, heap, refs, got, f.got, all, Any(t, Rename(w, all)), o)
    decreases Unseen(heap, m.seen), w, 2
  {
    hide WellTyped, ValidMemo, Compatible, ValidRefs, Fits, GotFits, Ready, Unseen, Encode, HasType, Expect, Follow,
         GoodValue, Rename, Copies, GoodFrom, InHeap, MemoType, NoDup;
    ReadyParts(c, d, heap, m, got, refs);
    ReadyIs(c, d, heap, m, got, refs);
    ReadyIs(c, d, heap, MemoType(m, t), got, refs);
    assert MemoType(m, t).seen == m.seen by { MemoTypeSeen(m, t); }
    if w.Nil? && !t.TAny? {
      NilZero(c, heap, t, w);
    }
    ZeroNoPtr(Field(t));
    Exact(c, d, heap, t, w, MemoType(m, t), got, refs, ZeroOf(Field(t)), all);
  }

  lemma MemoTypeSeen(m: Memo, t: Ty)
    ensures MemoType(m, t).seen == m.seen
  {
  }

  // ------------------------------------------------------------------ pointers

  /** A reference: right exactly if the number means the same struct to both sides. */
  lemma ExactRef(c: Schema, d: Schema, heap: Heap, id: Id, m: Memo, got: seq<Id>, refs: seq<Struct>, prev: Value,
                 all: seq<Id>)
    requires Ready(c, d, heap, m, got, refs) && id in heap && id in m.seen && got <= all && NoDup(all)
    ensures FollowPtr(c, d, heap, id, m, got).got == got
    ensures OutFits(d, heap, got, ExpectPtr(c, d, heap, id, m, refs, prev))
    ensures FollowPtr(c, d, heap, id, m, got).aligned
      <==> IsCopy(d, heap, refs, got, got, all, Ptr(IndexOf(all, id)), ExpectPtr(c, d, heap, id, m, refs, prev))
  {
    hide WellTyped, ValidMemo, Compatible, ValidRefs, Copies;
    NoCopies(d, heap, got, refs, all);
    var u := IndexOf(m.seen, id);
    if u < |got| && got[u] == id {
      IndexOfAt(all, u);
    }
  }

  lemma NewStruct(d: Schema, heap: Heap, x: Struct, got: seq<Id>, got2: seq<Id>, refs: seq<Struct>, all: seq<Id>)
    requires x.name < |d.structs| && |got| < |got2| && InHeap(heap, got2) && heap[got2[|got|]] == x
    ensures var zero := ZeroStruct(d, x.name);
      Fill(refs + [zero], |refs|, 0, KeptFields(d.structs[x.name], x.fields, all))
        + Copies(d, heap, got2, |got| + 1, all)
      == refs + Copies(d, heap, got2, |got|, all)
  {
    hide KeptFields;
    var zero, target := ZeroStruct(d, x.name), KeptFields(d.structs[x.name], x.fields, all);
    assert |target| == |d.structs[x.name]| by { KeptLength(d.structs[x.name], x.fields, all); }
    assert (refs + [zero])[|refs|] == zero && zero.fields[..0] + target[0..] == target;
    assert zero.(fields := target) == Struct(x.name, target);
    assert Fill(refs + [zero], |refs|, 0, target) == refs + [Struct(x.name, target)];
    assert CopyOf(d, x, all) == Struct(x.name, target);
    assert Copies(d, heap, got2, |got|, all) == [CopyOf(d, x, all)] + Copies(d, heap, got2, |got| + 1, all);
  }

  lemma KeptLength(dts: seq<FieldTy>, fs: seq<Value>, all: seq<Id>)
    ensures |KeptFields(dts, fs, all)| == |dts|
  {
  }

  /** Struct `idx` with its fields from `k` on as in `target`. */
  function Fill(refs: seq<Struct>, idx: nat, k: nat, target: seq<Value>): (r: seq<Struct>)
    requires idx < |refs| && |refs[idx].fields| == |target|
    ensures |r| == |refs|
  {
    var n := if k < |target| then k else |target|;
    refs[idx := refs[idx].(fields := refs[idx].fields[..n] + target[n..])]
  }

  lemma {:induction false} ExactPtr(c: Schema, d: Schema, heap: Heap, id: Id, m: Memo, got: seq<Id>, refs: seq<Struct>,
                                    prev: Value, all: seq<Id>)
    requires Ready(c, d, heap, m, got, refs) && id in heap && (prev.Ptr? ==> prev.id < |refs|)
    requires FollowPtr(c, d, heap, id, m, got).got <= all && NoDup(all)
    ensures var f, o := FollowPtr(c, d, heap, id, m, got), ExpectPtr(c, d, heap, id, m, refs, prev);
      f.aligned && GoodFrom(d, heap, f.got, |got|) <==> IsCopy(d, heap, refs, got, f.got, all, Ptr(IndexOf(all, id)), o)
    decreases Unseen(heap, m.seen), Ptr(id), 0
  {
    hide *;
    ReadyParts(c, d, heap, m, got, refs);
    if id in m.seen {
      ExactRef(c, d, heap, id, m, got, refs, prev, all);
      NoCopies(d, heap, got, refs, all);
    } else {
      MeetValid(c, heap, m, id);
      StructAt(c, heap, id);
      CompatibleAt(c, d, heap[id].name);
      GotMeets(heap, m, got, id);
      ReadyMeets(c, d, heap, m, got, refs, id);
      StartReading(c, d, heap, id, refs);
      var x := heap[id];
      var refs0 := refs + [ZeroStruct(d, x.name)];
      FollowStart(c, d, heap, id, m, got);
      ReadyParts(c, d, heap, Meet(m, id), got + [id], refs0);
      ExpectStart(c, d, heap, id, m, refs, prev);
      FitsFields(c, d, heap, d.structs[x.name], c.structs[x.name], x.fields, 0, |refs|, Meet(m, id), got + [id], refs0);
      ExactFields(c, d, heap, d.structs[x.name], c.structs[x.name], x.fields, 0, |refs|, Meet(m, id), got + [id],
        refs0, all);
      GotFitsIs(heap, EncodePtr(c, heap, id, m).memo, FollowPtr(c, d, heap, id, m, got).got);
      StartStep(d, heap, id, got, FollowPtr(c, d, heap, id, m, got), refs, prev, all,
                ExpectFields(c, d, heap, c.structs[x.name], x.fields, 0, |refs|, Meet(m, id), refs0));
    }
  }

  lemma StructAt(c: Schema, heap: Heap, id: Id)
    requires WellTyped(c, heap) && id in heap
    ensures heap[id].name < |c.structs| && FieldsHaveType(c, heap, c.structs[heap[id].name], heap[id].fields)
    ensures |heap[id].fields| < TWO_63
  {
    hide HasType;
    assert StructHasType(c, heap, heap[id]);
  }

  lemma ReadyMeets(c: Schema, d: Schema, heap: Heap, m: Memo, got: seq<Id>, refs: seq<Struct>, id: Id)
    requires Ready(c, d, heap, m, got, refs) && id in heap && id !in m.seen && heap[id].name < |d.structs|
    ensures Ready(c, d, heap, Meet(m, id), got + [id], refs + [ZeroStruct(d, heap[id].name)])
  {
    hide WellTyped, ValidMemo, Compatible, GotFits;
    MeetValid(c, heap, m, id);
    GotMeets(heap, m, got, id);
  }

  lemma FollowStart(c: Schema, d: Schema, heap: Heap, id: Id, m: Memo, got: seq<Id>)
    requires WellTyped(c, heap) && ValidMemo(c, heap, m) && id in heap && GotFits(heap, m, got) && id !in m.seen
    requires heap[id].name < |c.structs| && heap[id].name < |d.structs| && ValidMemo(c, heap, Meet(m, id))
    requires GotFits(heap, Meet(m, id), got + [id])
    requires FieldsHaveType(c, heap, c.structs[heap[id].name], heap[id].fields) && |heap[id].fields| < TWO_63
    ensures FollowPtr(c, d, heap, id, m, got)
         == FollowFields(c, d, heap, d.structs[heap[id].name], c.structs[heap[id].name], heap[id].fields, 0,
           Meet(m, id), got + [id])
  {
    hide WellTyped, ValidMemo, GotFits, FieldsHaveType;
  }

  lemma ExpectStart(c: Schema, d: Schema, heap: Heap, id: Id, m: Memo, refs: seq<Struct>, prev: Value)
    requires WellTyped(c, heap) && ValidMemo(c, heap, m) && id in heap && Compatible(c, d) && ValidRefs(d, refs)
    requires id !in m.seen
    requires heap[id].name < |c.structs| && heap[id].name < |d.structs| && ValidMemo(c, heap, Meet(m, id))
    requires FieldsHaveType(c, heap, c.structs[heap[id].name], heap[id].fields) && |heap[id].fields| < TWO_63
    requires ValidRefs(d, refs + [ZeroStruct(d, heap[id].name)]) && ZeroStruct(d, heap[id].name).name == heap[id].name
    requires CompatibleFields(c.structs[heap[id].name], d.structs[heap[id].name])
    ensures var x := heap[id];
      ExpectPtr(c, d, heap, id, m, refs, prev)
      == PtrAfter(ExpectFields(c, d, heap, c.structs[x.name], x.fields, 0, |refs|, Meet(m, id),
        refs + [ZeroStruct(d, x.name)]), x, |refs|, prev)
  {
    hide WellTyped, ValidMemo, ValidRefs, Compatible, FieldsHaveType, ZeroStruct, ExpectFields, CompatibleFields;
  }

  /** What a pointer variable holds after the fields of its struct were read. */
  function PtrAfter(o: Outcome<seq<Struct>>, x: Struct, idx: nat, prev: Value): Outcome<Dec> {
    match o
    case Crash => Crash
    case Out(refs) => Out(Dec(if AllZero(x.fields, 0) then prev else Ptr(idx), refs))
  }

  /** The fields were read into struct `idx` as `target` says, and copies were allocated. */
  predicate Filled(d: Schema, heap: Heap, refs: seq<Struct>, idx: nat, k: nat, target: seq<Value>, got: seq<Id>,
                   got': seq<Id>, all: seq<Id>, o: Outcome<seq<Struct>>)
    requires idx < |refs| && |refs[idx].fields| == |target| && got <= got' && InHeap(heap, got')
  {
    o.Out? && o.value == Fill(refs, idx, k, target) + Copies(d, heap, got', |got|, all)
  }

  /** From the fields of a new struct to the pointer to it. */
  lemma StartStep(d: Schema, heap: Heap, id: Id, got: seq<Id>, f: Trail, refs: seq<Struct>, prev: Value, all: seq<Id>,
                  o: Outcome<seq<Struct>>)
    requires id in heap && heap[id].name < |d.structs| && |refs| == |got| && (prev.Ptr? ==> prev.id < |refs|)
    requires got + [id] <= f.got <= all && InHeap(heap, f.got) && NoDup(all)
    requires |ZeroStruct(d, heap[id].name).fields| == |d.structs[heap[id].name]|
    requires o.Out? ==> Fits(d, heap, f.got, o.value)
    requires var x, zero := heap[id], ZeroStruct(d, heap[id].name);
      GoodFields(d.structs[x.name], x.fields, 0) && f.aligned && GoodFrom(d, heap, f.got, |got| + 1)
      <==> Filled(d, heap, refs + [zero], |refs|, 0, KeptFields(d.structs[x.name], x.fields, all), got + [id], f.got,
        all, o)
    ensures OutFits(d, heap, f.got, PtrAfter(o, heap[id], |refs|, prev))
    ensures got <= f.got
    ensures f.aligned && GoodFrom(d, heap, f.got, |got|)
      <==> IsCopy(d, heap, refs, got, f.got, all, Ptr(IndexOf(all, id)), PtrAfter(o, heap[id], |refs|, prev))
  {
    hide GoodFields, KeptFields, Copies, Fill, ZeroStruct, AllZero, GoodStruct, ValidRefs, GoodFrom, Fits, InHeap,
         NoDup,
         IndexOf, CopyOf;
    assert f.got[|got|] == id && all[|got|] == id;
    IndexOfAt(all, |got|);
    NewStruct(d, heap, heap[id], got, f.got, refs, all);
    FirstGood(d, heap, f.got, |got|);
    if o.Out? {
      FitsLength(d, heap, f.got, o.value);
    }
  }

  lemma FitsLength(d: Schema, heap: Heap, got: seq<Id>, refs: seq<Struct>)
    requires Fits(d, heap, got, refs)
    ensures |refs| == |got|
  {
  }

  lemma FirstGood(d: Schema, heap: Heap, got: seq<Id>, k: nat)
    requires k < |got| && InHeap(heap, got) && heap[got[k]].name < |d.structs|
    ensures var x := heap[got[k]];
      GoodFrom(d, heap, got, k) <==>
        !AllZero(x.fields, 0) && GoodFields(d.structs[x.name], x.fields, 0) && GoodFrom(d, heap, got, k + 1)
  {
    hide GoodFields, AllZero;
    assert GoodStruct(d, heap[got[k]]) <==>
        !AllZero(heap[got[k]].fields, 0) && GoodFields(d.structs[heap[got[k]].name], heap[got[k]].fields, 0);
  }

  // -------------------------------------------------------------------- fields

  /** A zero field, or one that the decoder does not know, is already as it should be. */
  lemma FillSame(c: Schema, heap: Heap, dts: seq<FieldTy>, fts: seq<FieldTy>, fs: seq<Value>, k: nat, idx: nat,
                 refs: seq<Struct>, all: seq<Id>)
    requires FieldsHaveType(c, heap, fts, fs) && k < |fs| && CompatibleFields(fts, dts)
    requires (IsZero(fs[k]) || !Kept(dts, k))
    requires idx < |refs| && |refs[idx].fields| == |dts| && (k < |dts| ==> refs[idx].fields[k] == ZeroOf(dts[k]))
    ensures Fill(refs, idx, k, KeptFields(dts, fs, all)) == Fill(refs, idx, k + 1, KeptFields(dts, fs, all))
    ensures GoodFields(dts, fs, k) <==> GoodFields(dts, fs, k + 1)
  {
    hide GoodValue;
    var target := KeptFields(dts, fs, all);
    assert FieldHasType(c, heap, fts[k], fs[k]);
    if k < |dts| {
      assert target[k] == ZeroOf(dts[k]);
      assert refs[idx].fields[..k] + target[k..] == refs[idx].fields[..k + 1] + target[k + 1..];
    }
  }

  lemma GoodFieldsSplit(dts: seq<FieldTy>, fs: seq<Value>, k: nat)
    requires k < |fs| && Kept(dts, k) && !IsZero(fs[k])
    ensures GoodFields(dts, fs, k) <==> GoodValue(dts[k].ty, fs[k]) && GoodFields(dts, fs, k + 1)
  {
    hide GoodValue;
  }

  lemma FieldIsCopied(dts: seq<FieldTy>, fs: seq<Value>, k: nat, idx: nat, all: seq<Id>, refs: seq<Struct>, a: Dec,
                      c1: seq<Struct>, c2: seq<Struct>, refs2: seq<Struct>)
    requires idx < |refs| && k < |fs| && Kept(dts, k) && !IsZero(fs[k]) && |refs[idx].fields| == |dts|
    requires |refs| + |c1| == |a.refs|
    requires refs <= a.refs && SetsOnly(SetField(a.refs, idx, k, a.v), idx, k + 1, refs2)
    requires refs2 == (Fill(refs, idx, k, KeptFields(dts, fs, all)) + c1) + c2
    ensures a.v == Rename(fs[k], all) && a.refs == refs + c1
  {
    hide Rename;
    var target := KeptFields(dts, fs, all);
    var now := Fill(refs, idx, k, target) + c1;
    assert refs2[idx] == now[idx];
    assert now[idx].fields[k] == target[k];
    forall j | 0 <= j < |a.refs|
      ensures a.refs[j] == (refs + c1)[j]
    {
      if j != idx {
        assert refs2[j] == SetField(a.refs, idx, k, a.v)[j] == a.refs[j];
        assert refs2[j] == now[j] == (refs + c1)[j];
      }
    }
  }

  lemma FillNext(dts: seq<FieldTy>, fs: seq<Value>, k: nat, idx: nat, all: seq<Id>, refs: seq<Struct>, c1: seq<Struct>)
    requires idx < |refs| && k < |fs| && Kept(dts, k) && !IsZero(fs[k]) && |refs[idx].fields| == |dts|
    ensures var target := KeptFields(dts, fs, all);
      Fill(SetField(refs + c1, idx, k, Rename(fs[k], all)), idx, k + 1, target) == Fill(refs, idx, k, target) + c1
  {
    hide Rename;
    var target, before := KeptFields(dts, fs, all), refs[idx].fields[..k];
    var v := Rename(fs[k], all);
    assert target[k] == v && target[k..] == [v] + target[k + 1..];
    assert SetField(refs + c1, idx, k, v)[idx].fields[..k + 1] == before + [v];
    assert before + [v] + target[k + 1..] == before + target[k..];
  }

  lemma FieldStep(d: Schema, heap: Heap, dts: seq<FieldTy>, fs: seq<Value>, k: nat, idx: nat, got: seq<Id>,
                  got1: seq<Id>, got2: seq<Id>, all: seq<Id>, refs: seq<Struct>, a: Dec, refs2: seq<Struct>)
    requires got <= got1 <= got2 && InHeap(heap, got2) && |refs| == |got| && |a.refs| == |got1|
    requires idx < |refs| && k < |fs| && Kept(dts, k) && !IsZero(fs[k]) && |refs[idx].fields| == |dts|
    requires refs <= a.refs && SetsOnly(SetField(a.refs, idx, k, a.v), idx, k + 1, refs2)
    ensures InHeap(heap, got1)
    ensures var target := KeptFields(dts, fs, all);
      refs2 == Fill(refs, idx, k, target) + Copies(d, heap, got2, |got|, all)
      <==> && a.v == Rename(fs[k], all) && a.refs == refs + Copies(d, heap, got1, |got|, all)
           && refs2 == Fill(SetField(a.refs, idx, k, a.v), idx, k + 1, target) + Copies(d, heap, got2, |got1|, all)
  {
    hide Copies, Rename, Fill, KeptFields, SetsOnly;
    CopiesSplit(d, heap, got, got1, got2, all);
    CopiesLength(d, heap, got1, |got|, all);
    var target := KeptFields(dts, fs, all);
    KeptLength(dts, fs, all);
    var c1, c2 := Copies(d, heap, got1, |got|, all), Copies(d, heap, got2, |got1|, all);
    var now := Fill(refs, idx, k, target);
    assert now + (c1 + c2) == (now + c1) + c2;
    if refs2 == (now + c1) + c2 {
      FieldIsCopied(dts, fs, k, idx, all, refs, a, c1, c2, refs2);
    }
    if a.v == Rename(fs[k], all) && a.refs == refs + c1 {
      FillNext(dts, fs, k, idx, all, refs, c1);
    }
  }

  lemma FieldsEnd(d: Schema, heap: Heap, dts: seq<FieldTy>, fs: seq<Value>, idx: nat, got: seq<Id>,
                  refs: seq<Struct>, all: seq<Id>)
    requires InHeap(heap, got) && idx < |refs| && |refs[idx].fields| == |dts|
    requires forall i :: |fs| <= i < |dts| ==> refs[idx].fields[i] == ZeroOf(dts[i])
    ensures GoodFields(dts, fs, |fs|) && GoodFrom(d, heap, got, |got|)
    ensures Filled(d, heap, refs, idx, |fs|, KeptFields(dts, fs, all), got, got, all, Out(refs))
  {
    hide GoodValue, Copies;
    NoCopies(d, heap, got, refs, all);
    var k, target := if |fs| < |dts| then |fs| else |dts|, KeptFields(dts, fs, all);
    assert refs[idx].fields[..k] + target[k..] == refs[idx].fields;
  }

  /** The state in which fields are read. */
  predicate Reading(d: Schema, dts: seq<FieldTy>, fts: seq<FieldTy>, fs: seq<Value>, k: nat, idx: nat,
                    refs: seq<Struct>) {
    && idx < |refs| && refs[idx].name < |d.structs| && dts == d.structs[refs[idx].name] && CompatibleFields(fts, dts)
         && |refs[idx].fields| == |dts|
    && (forall i :: k <= i < |dts| ==> refs[idx].fields[i] == ZeroOf(dts[i])) && k <= |fs| < TWO_63
  }

  lemma ReadingIs(d: Schema, dts: seq<FieldTy>, fts: seq<FieldTy>, fs: seq<Value>, k: nat, idx: nat, refs: seq<Struct>)
    requires Reading(d, dts, fts, fs, k, idx, refs)
    ensures idx < |refs| && refs[idx].name < |d.structs| && dts == d.structs[refs[idx].name]
    ensures CompatibleFields(fts, dts)
    ensures |refs[idx].fields| == |dts|
    ensures (k < |dts| ==> refs[idx].fields[k] == ZeroOf(dts[k])) && k <= |fs| < TWO_63
    ensures k < |fs| ==> Reading(d, dts, fts, fs, k + 1, idx, refs)
  {
    hide CompatibleFields;
  }

  lemma ReadingEnd(d: Schema, dts: seq<FieldTy>, fts: seq<FieldTy>, fs: seq<Value>, idx: nat, refs: seq<Struct>)
    requires Reading(d, dts, fts, fs, |fs|, idx, refs)
    ensures idx < |refs| && |refs[idx].fields| == |dts|
    ensures forall i :: |fs| <= i < |dts| ==> refs[idx].fields[i] == ZeroOf(dts[i])
  {
    hide CompatibleFields;
  }

  lemma ReadingSet(d: Schema, dts: seq<FieldTy>, fts: seq<FieldTy>, fs: seq<Value>, k: nat, idx: nat,
                   refs: seq<Struct>, refs1: seq<Struct>, v: Value)
    requires Reading(d, dts, fts, fs, k, idx, refs) && refs <= refs1 && k < |fs| && k < |dts|
    ensures idx < |refs1| && k < |refs1[idx].fields| && Reading(d, dts, fts, fs, k + 1, idx, SetField(refs1, idx, k, v))
  {
    hide CompatibleFields;
  }

  lemma {:induction false} ExactFields(c: Schema, d: Schema, heap: Heap, dts: seq<FieldTy>, fts: seq<FieldTy>,
                                       fs: seq<Value>, k: nat, idx: nat,
                                       m: Memo, got: seq<Id>, refs: seq<Struct>, all: seq<Id>)
    requires Ready(c, d, heap, m, got, refs) && FieldsHaveType(c, heap, fts, fs)
    requires Reading(d, dts, fts, fs, k, idx, refs)
    requires FollowFields(c, d, heap, dts, fts, fs, k, m, got).got <= all && NoDup(all)
    ensures var f, o := FollowFields(c, d, heap, dts, fts, fs, k, m, got),
      ExpectFields(c, d, heap, fts, fs, k, idx, m, refs);
      GoodFields(dts, fs, k) && f.aligned && GoodFrom(d, heap, f.got, |got|)
      <==> Filled(d, heap, refs, idx, k, KeptFields(dts, fs, all), got, f.got, all, o)
    decreases Unseen(heap, m.seen), fs, |fs| - k
  {
    hide *;
    ReadyParts(c, d, heap, m, got, refs);
    ReadingIs(d, dts, fts, fs, k, idx, refs);
    KeptLength(dts, fs, all);
    GotFitsIs(heap, EncodeFields(c, heap, fts, fs, k, m).memo, FollowFields(c, d, heap, dts, fts, fs, k, m, got).got);
    FieldsLength(c, heap, fts, fs);
    if k == |fs| {
      ReadingEnd(d, dts, fts, fs, idx, refs);
      FieldsEnd(d, heap, dts, fs, idx, got, refs, all);
      NoFieldsLeft(c, d, heap, dts, fts, fs, idx, m, got, refs);
    } else if IsZero(fs[k]) {
      FillSame(c, heap, dts, fts, fs, k, idx, refs, all);
      ZeroStep(c, d, heap, dts, fts, fs, k, idx, m, got, refs);
      ExactFields(c, d, heap, dts, fts, fs, k + 1, idx, m, got, refs, all);
      FilledSame(d, heap, refs, idx, k, KeptFields(dts, fs, all), got,
        FollowFields(c, d, heap, dts, fts, fs, k, m, got).got, all);
    } else {
      FieldAt(c, heap, fts, fs, k, m);
      var a := Encode(c, heap, fts[k].ty, fs[k], m).memo;
      if !Kept(dts, k) {
        SkipStep(c, d, heap, dts, fts, fs, k, idx, m, got, refs);
        FillSame(c, heap, dts, fts, fs, k, idx, refs, all);
        ExactFields(c, d, heap, dts, fts, fs, k + 1, idx, a, got, refs, all);
        FilledSame(d, heap, refs, idx, k, KeptFields(dts, fs, all), got,
          FollowFields(c, d, heap, dts, fts, fs, k, m, got).got, all);
      } else {
        ExactField(c, d, heap, dts, fts, fs, k, idx, m, got, refs, all);
      }
    }
  }

  lemma FieldsLength(c: Schema, heap: Heap, fts: seq<FieldTy>, fs: seq<Value>)
    requires FieldsHaveType(c, heap, fts, fs)
    ensures |fts| == |fs|
  {
  }

  lemma FilledSame(d: Schema, heap: Heap, refs: seq<Struct>, idx: nat, k: nat, target: seq<Value>, got: seq<Id>,
                   got': seq<Id>, all: seq<Id>)
    requires idx < |refs| && |refs[idx].fields| == |target| && got <= got' && InHeap(heap, got')
    requires Fill(refs, idx, k, target) == Fill(refs, idx, k + 1, target)
    ensures forall o ::
      Filled(d, heap, refs, idx, k, target, got, got', all, o)
        == Filled(d, heap, refs, idx, k + 1, target, got, got', all, o)
  {
    hide Fill, Copies;
  }

  lemma NoFieldsLeft(c: Schema, d: Schema, heap: Heap, dts: seq<FieldTy>, fts: seq<FieldTy>, fs: seq<Value>, idx: nat,
                     m: Memo, got: seq<Id>, refs: seq<Struct>)
    requires WellTyped(c, heap) && ValidMemo(c, heap, m) && FieldsHaveType(c, heap, fts, fs) && Compatible(c, d)
    requires ValidRefs(d, refs) && GotFits(heap, m, got)
    requires |fs| < TWO_63 && idx < |refs| && refs[idx].name < |d.structs|
    requires CompatibleFields(fts, d.structs[refs[idx].name])
    ensures FollowFields(c, d, heap, dts, fts, fs, |fs|, m, got) == Trail(got, true)
    ensures ExpectFields(c, d, heap, fts, fs, |fs|, idx, m, refs) == Out(refs)
  {
    hide WellTyped, ValidMemo, FieldsHaveType, Compatible, ValidRefs, GotFits, CompatibleFields;
  }

  lemma ZeroStep(c: Schema, d: Schema, heap: Heap, dts: seq<FieldTy>, fts: seq<FieldTy>, fs: seq<Value>, k: nat,
                 idx: nat, m: Memo, got: seq<Id>, refs: seq<Struct>)
    requires WellTyped(c, heap) && ValidMemo(c, heap, m) && FieldsHaveType(c, heap, fts, fs) && Compatible(c, d)
    requires ValidRefs(d, refs) && GotFits(heap, m, got)
    requires k < |fs| < TWO_63 && idx < |refs| && refs[idx].name < |d.structs|
    requires CompatibleFields(fts, d.structs[refs[idx].name]) && IsZero(fs[k])
    ensures FollowFields(c, d, heap, dts, fts, fs, k, m, got) == FollowFields(c, d, heap, dts, fts, fs, k + 1, m, got)
    ensures ExpectFields(c, d, heap, fts, fs, k, idx, m, refs) == ExpectFields(c, d, heap, fts, fs, k + 1, idx, m, refs)
  {
    hide WellTyped, ValidMemo, FieldsHaveType, Compatible, ValidRefs, GotFits, CompatibleFields, Encode, Expect, Follow;
  }

  lemma FieldAt(c: Schema, heap: Heap, fts: seq<FieldTy>, fs: seq<Value>, k: nat, m: Memo)
    requires WellTyped(c, heap) && ValidMemo(c, heap, m) && FieldsHaveType(c, heap, fts, fs) && k < |fs|
    requires !IsZero(fs[k])
    ensures k < |fts| && fts[k].Field? && HasType(c, heap, fts[k].ty, fs[k])
    ensures var a := Encode(c, heap, fts[k].ty, fs[k], m).memo;
      Unseen(heap, a.seen) <= Unseen(heap, m.seen) && Extends(m, a) && ValidMemo(c, heap, a)
  {
    hide WellTyped, ValidMemo, HasType, Unseen, Encode;
    assert FieldHasType(c, heap, fts[k], fs[k]);
    UnseenShrinks(heap, m.seen, Encode(c, heap, fts[k].ty, fs[k], m).memo.seen);
  }

  lemma SkipStep(c: Schema, d: Schema, heap: Heap, dts: seq<FieldTy>, fts: seq<FieldTy>, fs: seq<Value>, k: nat,
                 idx: nat, m: Memo, got: seq<Id>, refs: seq<Struct>)
    requires Ready(c, d, heap, m, got, refs) && FieldsHaveType(c, heap, fts, fs)
    requires k < |fs| < TWO_63 && idx < |refs| && refs[idx].name < |d.structs| && dts == d.structs[refs[idx].name]
    requires CompatibleFields(fts, dts)
    requires !IsZero(fs[k]) && !Kept(dts, k) && k < |fts| && fts[k].Field? && HasType(c, heap, fts[k].ty, fs[k])
    ensures var a := Encode(c, heap, fts[k].ty, fs[k], m).memo;
      && Ready(c, d, heap, a, got, refs)
      && FollowFields(c, d, heap, dts, fts, fs, k, m, got) == FollowFields(c, d, heap, dts, fts, fs, k + 1, a, got)
      && ExpectFields(c, d, heap, fts, fs, k, idx, m, refs) == ExpectFields(c, d, heap, fts, fs, k + 1, idx, a, refs)
  {
    hide WellTyped, ValidMemo, FieldsHaveType, HasType, Compatible, ValidRefs, GotFits, CompatibleFields, Encode,
         Expect, Follow,
         Fits;
    GotGrows(heap, m, Encode(c, heap, fts[k].ty, fs[k], m).memo, got);
  }

  lemma FieldUnfold(c: Schema, d: Schema, heap: Heap, dts: seq<FieldTy>, fts: seq<FieldTy>, fs: seq<Value>, k: nat,
                    idx: nat, m: Memo, got: seq<Id>, refs: seq<Struct>)
    requires Ready(c, d, heap, m, got, refs) && FieldsHaveType(c, heap, fts, fs)
    requires Reading(d, dts, fts, fs, k, idx, refs) && k < |fs|
    requires !IsZero(fs[k]) && Kept(dts, k) && k < |fts| && fts[k].Field? && HasType(c, heap, fts[k].ty, fs[k])
    requires ValidMemo(c, heap, Encode(c, heap, fts[k].ty, fs[k], m).memo)
    ensures dts[k] == fts[k]
    ensures var a, r := Encode(c, heap, fts[k].ty, fs[k], m).memo, Follow(c, d, heap, fts[k].ty, fs[k], m, got);
      var s := FollowFields(c, d, heap, dts, fts, fs, k + 1, a, r.got);
      FollowFields(c, d, heap, dts, fts, fs, k, m, got) == Trail(s.got, r.aligned && s.aligned)
    ensures var a, o := Encode(c, heap, fts[k].ty, fs[k], m).memo,
      Expect(c, d, heap, fts[k].ty, fs[k], m, refs, refs[idx].fields[k]);
      && (o.Crash? ==> ExpectFields(c, d, heap, fts, fs, k, idx, m, refs).Crash?)
      && (o.Out? ==>
            && idx < |o.value.refs| && k < |o.value.refs[idx].fields|
                 && ValidRefs(d, SetField(o.value.refs, idx, k, o.value.v))
            && Reading(d, dts, fts, fs, k + 1, idx, SetField(o.value.refs, idx, k, o.value.v))
            && ExpectFields(c, d, heap, fts, fs, k, idx, m, refs)
               == ExpectFields(c, d, heap, fts, fs, k + 1, idx, a, SetField(o.value.refs, idx, k, o.value.v)))
  {
    hide WellTyped, ValidMemo, FieldsHaveType, HasType, Compatible, ValidRefs, GotFits, Encode, Expect, Follow, Fits;
    ReadyParts(c, d, heap, m, got, refs);
    KeptIs(dts, k);
    var o := Expect(c, d, heap, fts[k].ty, fs[k], m, refs, refs[idx].fields[k]);
    if o.Out? {
      ReadingSet(d, dts, fts, fs, k, idx, refs, o.value.refs, o.value.v);
      ValidSet(d, o.value.refs, idx, k, o.value.v);
    }
  }

  lemma KeptIs(dts: seq<FieldTy>, k: nat)
    ensures Kept(dts, k) ==> k < |dts| && dts[k].Field?
  {
  }

  lemma FitsSet(d: Schema, heap: Heap, got: seq<Id>, refs: seq<Struct>, idx: nat, k: nat, v: Value)
    requires Fits(d, heap, got, refs) && idx < |refs| && k < |refs[idx].fields|
    ensures Fits(d, heap, got, SetField(refs, idx, k, v))
  {
  }

  /** A field that both sides know. */
  lemma {:induction false} ExactField(c: Schema, d: Schema, heap: Heap, dts: seq<FieldTy>, fts: seq<FieldTy>,
                                      fs: seq<Value>, k: nat, idx: nat,
                                      m: Memo, got: seq<Id>, refs: seq<Struct>, all: seq<Id>)
    requires Ready(c, d, heap, m, got, refs) && FieldsHaveType(c, heap, fts, fs)
    requires Reading(d, dts, fts, fs, k, idx, refs)
    requires k < |fs| && !IsZero(fs[k]) && Kept(dts, k)
    requires FollowFields(c, d, heap, dts, fts, fs, k, m, got).got <= all && NoDup(all)
    ensures var f, o := FollowFields(c, d, heap, dts, fts, fs, k, m, got),
      ExpectFields(c, d, heap, fts, fs, k, idx, m, refs);
      GoodFields(dts, fs, k) && f.aligned && GoodFrom(d, heap, f.got, |got|)
      <==> Filled(d, heap, refs, idx, k, KeptFields(dts, fs, all), got, f.got, all, o)
    decreases Unseen(heap, m.seen), fs, |fs| - k, 0
  {
    hide *;
    ReadyParts(c, d, heap, m, got, refs);
    ReadingIs(d, dts, fts, fs, k, idx, refs);
    KeptIs(dts, k);
    KeptLength(dts, fs, all);
    FieldAt(c, heap, fts, fs, k, m);
    FieldUnfold(c, d, heap, dts, fts, fs, k, idx, m, got, refs);
    var ty, a := fts[k].ty, Encode(c, heap, fts[k].ty, fs[k], m).memo;
    var r := Follow(c, d, heap, ty, fs[k], m, got);
    var s := FollowFields(c, d, heap, dts, fts, fs, k + 1, a, r.got);
    var o := Expect(c, d, heap, ty, fs[k], m, refs, refs[idx].fields[k]);
    ZeroNoPtr(dts[k]);
    NonZeroNotNil(fs[k]);
    GotFitsIs(heap, a, r.got);
    GotFitsIs(heap, EncodeFields(c, heap, fts, fs, k + 1, a).memo, s.got);
    FitsValue(c, d, heap, ty, fs[k], m, got, refs, refs[idx].fields[k]);
    Exact(c, d, heap, ty, fs[k], m, got, refs, refs[idx].fields[k], all);
    if o.Out? {
      OutFitsIs(d, heap, r.got, o);
      FitsSet(d, heap, r.got, o.value.refs, idx, k, o.value.v);
      var refs1 := SetField(o.value.refs, idx, k, o.value.v);
      ReadyAfter(c, d, heap, a, r.got, refs1);
      ExactFields(c, d, heap, dts, fts, fs, k + 1, idx, a, r.got, refs1, all);
      ReadingIs(d, dts, fts, fs, k + 1, idx, refs1);
      FieldJoin(d, heap, dts, fs, k, idx, got, r, s, all, refs, o.value,
        ExpectFields(c, d, heap, fts, fs, k + 1, idx, a, refs1));
    } else {
      NotCrash(d, heap, refs, got, r.got, all, Rename(fs[k], all));
      FieldCrash(d, heap, dts, fs, k, idx, got, r, s, all, refs);
    }
  }

  lemma NonZeroNotNil(v: Value)
    requires !IsZero(v)
    ensures !v.Nil?
  {
  }

  lemma OutFitsIs(d: Schema, heap: Heap, got: seq<Id>, o: Outcome<Dec>)
    requires OutFits(d, heap, got, o) && o.Out?
    ensures Fits(d, heap, got, o.value.refs) && (o.value.v.Ptr? ==> o.value.v.id < |o.value.refs|)
    ensures |o.value.refs| == |got|
  {
    hide ValidRefs;
  }

  /** From a field and, if it was read, the fields after it. */
  lemma FieldJoin(d: Schema, heap: Heap, dts: seq<FieldTy>, fs: seq<Value>, k: nat, idx: nat, got: seq<Id>, r: Trail,
                  s: Trail, all: seq<Id>, refs: seq<Struct>, a: Dec, o2: Outcome<seq<Struct>>)
    requires got <= r.got <= s.got && InHeap(heap, s.got) && InHeap(heap, r.got) && |refs| == |got|
    requires |a.refs| == |r.got|
    requires idx < |refs| && k < |fs| && Kept(dts, k) && !IsZero(fs[k]) && |refs[idx].fields| == |dts| && refs <= a.refs
    requires o2.Out? ==> SetsOnly(SetField(a.refs, idx, k, a.v), idx, k + 1, o2.value)
    requires GoodValue(dts[k].ty, fs[k]) && r.aligned && GoodFrom(d, heap, r.got, |got|)
      <==> IsCopy(d, heap, refs, got, r.got, all, Rename(fs[k], all), Out(a))
    requires |KeptFields(dts, fs, all)| == |dts|
    requires GoodFields(dts, fs, k + 1) && s.aligned && GoodFrom(d, heap, s.got, |r.got|)
      <==> Filled(d, heap, SetField(a.refs, idx, k, a.v), idx, k + 1, KeptFields(dts, fs, all), r.got, s.got, all, o2)
    ensures GoodFields(dts, fs, k) && r.aligned && s.aligned && GoodFrom(d, heap, s.got, |got|)
      <==> Filled(d, heap, refs, idx, k, KeptFields(dts, fs, all), got, s.got, all, o2)
  {
    hide GoodFields, KeptFields, Copies, Fill, GoodFrom, GoodValue, Rename, SetsOnly, InHeap, SetField;
    GoodFieldsSplit(dts, fs, k);
    GoodFromSplit(d, heap, r.got, s.got, |got|);
    if o2.Out? {
      FieldStep(d, heap, dts, fs, k, idx, got, r.got, s.got, all, refs, a, o2.value);
    }
  }

  lemma FieldCrash(d: Schema, heap: Heap, dts: seq<FieldTy>, fs: seq<Value>, k: nat, idx: nat, got: seq<Id>, r: Trail,
                   s: Trail, all: seq<Id>, refs: seq<Struct>)
    requires got <= r.got <= s.got && InHeap(heap, s.got) && InHeap(heap, r.got)
    requires idx < |refs| && k < |fs| && Kept(dts, k) && !IsZero(fs[k])
    requires |refs[idx].fields| == |KeptFields(dts, fs, all)|
    requires !(GoodValue(dts[k].ty, fs[k]) && r.aligned && GoodFrom(d, heap, r.got, |got|))
    ensures !(GoodFields(dts, fs, k) && r.aligned && s.aligned && GoodFrom(d, heap, s.got, |got|))
    ensures !Filled(d, heap, refs, idx, k, KeptFields(dts, fs, all), got, s.got, all, Crash)
  {
    hide GoodFields, KeptFields, GoodFrom, GoodValue;
    GoodFieldsSplit(dts, fs, k);
    GoodFromSplit(d, heap, r.got, s.got, |got|);
  }

  lemma NotCrash(d: Schema, heap: Heap, refs: seq<Struct>, got: seq<Id>, got': seq<Id>, all: seq<Id>, v: Value)
    requires got <= got' && InHeap(heap, got')
    ensures !IsCopy(d, heap, refs, got, got', all, v, Crash)
  {
  }

  // --------------------------------------------------------------- lists, maps

  lemma ListFollow(c: Schema, d: Schema, heap: Heap, ty: Ty, es: seq<Value>, k: nat, m: Memo, got: seq<Id>)
    requires WellTyped(c, heap) && ValidMemo(c, heap, m) && GotFits(heap, m, got) && AllHaveType(c, heap, ty, es)
    requires k < |es|
    ensures HasType(c, heap, ty, es[k])
    ensures var a, r := Encode(c, heap, ty, es[k], m).memo, Follow(c, d, heap, ty, es[k], m, got);
      && Unseen(heap, a.seen) <= Unseen(heap, m.seen) && ValidMemo(c, heap, a) && GotFits(heap, a, r.got)
           && got <= r.got
      && var s := FollowList(c, d, heap, ty, es, k + 1, a, r.got);
         FollowList(c, d, heap, ty, es, k, m, got) == Trail(s.got, r.aligned && s.aligned) && r.got <= s.got
  {
    hide WellTyped, ValidMemo, HasType, GotFits, Encode, Follow, Unseen, EncodeList;
    UnseenShrinks(heap, m.seen, Encode(c, heap, ty, es[k], m).memo.seen);
  }

  lemma ListInHeap(c: Schema, d: Schema, heap: Heap, ty: Ty, es: seq<Value>, k: nat, m: Memo, got: seq<Id>)
    requires WellTyped(c, heap) && ValidMemo(c, heap, m) && GotFits(heap, m, got) && AllHaveType(c, heap, ty, es)
    requires k <= |es|
    ensures InHeap(heap, FollowList(c, d, heap, ty, es, k, m, got).got)
  {
    hide *;
    GotFitsIs(heap, EncodeList(c, heap, ty, es, k, m).memo, FollowList(c, d, heap, ty, es, k, m, got).got);
  }

  lemma ListExpect(c: Schema, d: Schema, heap: Heap, ty: Ty, es: seq<Value>, k: nat, done: seq<Value>, m: Memo,
                   refs: seq<Struct>)
    requires WellTyped(c, heap) && ValidMemo(c, heap, m) && Compatible(c, d) && ValidRefs(d, refs)
    requires AllHaveType(c, heap, ty, es) && k < |es|
    requires HasType(c, heap, ty, es[k]) && ValidMemo(c, heap, Encode(c, heap, ty, es[k], m).memo)
    ensures var a, o := Encode(c, heap, ty, es[k], m).memo, Expect(c, d, heap, ty, es[k], m, refs, ZeroOf(Field(ty)));
      && (o.Crash? ==> ExpectList(c, d, heap, ty, es, k, done, m, refs).Crash?)
      && (o.Out? ==>
            && ValidRefs(d, o.value.refs) && refs <= o.value.refs
            && ExpectList(c, d, heap, ty, es, k, done, m, refs)
                 == ExpectList(c, d, heap, ty, es, k + 1, done + [o.value.v], a, o.value.refs))
  {
    hide WellTyped, ValidMemo, HasType, AllHaveType, Compatible, ValidRefs, Encode, Expect;
  }

  lemma ListEnds(c: Schema, d: Schema, heap: Heap, ty: Ty, es: seq<Value>, done: seq<Value>, m: Memo, got: seq<Id>,
                 refs: seq<Struct>)
    requires Ready(c, d, heap, m, got, refs) && AllHaveType(c, heap, ty, es)
    ensures FollowList(c, d, heap, ty, es, |es|, m, got) == Trail(got, true)
    ensures ExpectList(c, d, heap, ty, es, |es|, done, m, refs) == Out(Dec(List(done), refs))
  {
    hide WellTyped, ValidMemo, AllHaveType, Compatible, ValidRefs, GotFits, Fits;
  }

  /** From a value and, if it was read, those after it. */
  lemma ValuesJoin(d: Schema, heap: Heap, vs: seq<Value>, k: nat, done: seq<Value>, got: seq<Id>, r: Trail, s: Trail,
                   all: seq<Id>,
                   refs: seq<Struct>, a: Dec, good1: bool, good2: bool, elems: seq<Value>, refs2: seq<Struct>)
    requires got <= r.got <= s.got && InHeap(heap, s.got) && InHeap(heap, r.got) && |refs| == |got|
    requires |a.refs| == |r.got| && k < |vs|
    requires refs <= a.refs <= refs2 && done + [a.v] <= elems
    requires good1 && r.aligned && GoodFrom(d, heap, r.got, |got|) <==>
      IsCopy(d, heap, refs, got, r.got, all, Rename(vs[k], all), Out(a))
    requires IsCopy(d, heap, refs, got, r.got, all, Rename(vs[k], all), Out(a)) ==>
      (good2 && s.aligned && GoodFrom(d, heap, s.got, |r.got|)
       <==>
       elems == (done + [a.v]) + RenameFrom(vs, k + 1, all) && refs2 == a.refs + Copies(d, heap, s.got, |r.got|, all))
    ensures good1 && good2 && r.aligned && s.aligned && GoodFrom(d, heap, s.got, |got|)
      <==> elems == done + RenameFrom(vs, k, all) && refs2 == refs + Copies(d, heap, s.got, |got|, all)
  {
    hide Copies, GoodFrom, Rename, RenameFrom, InHeap;
    GoodFromSplit(d, heap, r.got, s.got, |got|);
    CopyStep(d, heap, vs, k, done, got, r.got, s.got, all, refs, a, elems, refs2);
  }

  /** A crash is no copy, of the value or of the whole. */
  lemma CrashJoin(d: Schema, heap: Heap, got: seq<Id>, r: Trail, s: Trail, all: seq<Id>, refs: seq<Struct>,
                  good1: bool, good2: bool, v: Value, whole: Value)
    requires got <= r.got <= s.got && InHeap(heap, s.got) && InHeap(heap, r.got)
    requires good1 && r.aligned && GoodFrom(d, heap, r.got, |got|) <==> IsCopy(d, heap, refs, got, r.got, all, v, Crash)
    ensures good1 && good2 && r.aligned && s.aligned && GoodFrom(d, heap, s.got, |got|) <==>
      IsCopy(d, heap, refs, got, s.got, all, whole, Crash)
  {
    hide Copies, GoodFrom, InHeap;
    GoodFromSplit(d, heap, r.got, s.got, |got|);
  }

  /** An element of a list. */
  lemma {:induction false} ExactElement(c: Schema, d: Schema, heap: Heap, ty: Ty, v: Value, m: Memo, got: seq<Id>,
                                        refs: seq<Struct>, all: seq<Id>)
    requires Ready(c, d, heap, m, got, refs) && HasType(c, heap, ty, v) && Follow(c, d, heap, ty, v, m, got).got <= all
    requires NoDup(all)
    ensures var f, o := Follow(c, d, heap, ty, v, m, got), Expect(c, d, heap, ty, v, m, refs, ZeroOf(Field(ty)));
      && InHeap(heap, f.got)
      && (GoodValue(ty, v) && f.aligned && GoodFrom(d, heap, f.got, |got|) <==>
           IsCopy(d, heap, refs, got, f.got, all, Rename(v, all), o))
      && (o.Out? ==> Fits(d, heap, f.got, o.value.refs) && |o.value.refs| == |f.got|)
    decreases Unseen(heap, m.seen), v, 3
  {
    hide *;
    ReadyParts(c, d, heap, m, got, refs);
    var f, o := Follow(c, d, heap, ty, v, m, got), Expect(c, d, heap, ty, v, m, refs, ZeroOf(Field(ty)));
    if v.Nil? && !ty.TAny? {
      NilZero(c, heap, ty, v);
    }
    ZeroNoPtr(Field(ty));
    GotFitsIs(heap, Encode(c, heap, ty, v, m).memo, f.got);
    FitsValue(c, d, heap, ty, v, m, got, refs, ZeroOf(Field(ty)));
    Exact(c, d, heap, ty, v, m, got, refs, ZeroOf(Field(ty)), all);
    if o.Out? {
      OutFitsIs(d, heap, f.got, o);
    }
  }

  lemma {:induction false} ExactList(c: Schema, d: Schema, heap: Heap, ty: Ty, es: seq<Value>, k: nat, done: seq<Value>,
                                     m: Memo, got: seq<Id>, refs: seq<Struct>, all: seq<Id>)
    requires Ready(c, d, heap, m, got, refs) && AllHaveType(c, heap, ty, es) && k <= |es| && |done| == k
    requires FollowList(c, d, heap, ty, es, k, m, got).got <= all && NoDup(all)
    ensures var f, o := FollowList(c, d, heap, ty, es, k, m, got), ExpectList(c, d, heap, ty, es, k, done, m, refs);
      AllGood(ty, es, k) && f.aligned && GoodFrom(d, heap, f.got, |got|)
      <==> IsCopy(d, heap, refs, got, f.got, all, List(done + RenameFrom(es, k, all)), o)
    decreases Unseen(heap, m.seen), es, |es| - k
  {
    hide *;
    ReadyParts(c, d, heap, m, got, refs);
    if k == |es| {
      ListEnds(c, d, heap, ty, es, done, m, got, refs);
      NothingLeft(c, d, heap, ty, es, done, m, got, refs, all, List(done));
    } else {
      ListFollow(c, d, heap, ty, es, k, m, got);
      ListExpect(c, d, heap, ty, es, k, done, m, refs);
      var a, r := Encode(c, heap, ty, es[k], m).memo, Follow(c, d, heap, ty, es[k], m, got);
      var s := FollowList(c, d, heap, ty, es, k + 1, a, r.got);
      var o := Expect(c, d, heap, ty, es[k], m, refs, ZeroOf(Field(ty)));
      ListInHeap(c, d, heap, ty, es, k + 1, a, r.got);
      GoodSplit(ty, es, k);
      ExactElement(c, d, heap, ty, es[k], m, got, refs, all);
      if o.Out? {
        ReadyAfter(c, d, heap, a, r.got, o.value.refs);
        ExactList(c, d, heap, ty, es, k + 1, done + [o.value.v], a, r.got, o.value.refs, all);
        var o2 := ExpectList(c, d, heap, ty, es, k + 1, done + [o.value.v], a, o.value.refs);
        ListJoin(d, heap, es, k, done, got, r, s, all, refs, o.value, GoodValue(ty, es[k]), AllGood(ty, es, k + 1), o2);
      } else {
        CrashJoin(d, heap, got, r, s, all, refs, GoodValue(ty, es[k]), AllGood(ty, es, k + 1), Rename(es[k], all),
          List(done + RenameFrom(es, k, all)));
      }
    }
  }

  lemma RenameEnd(vs: seq<Value>, all: seq<Id>)
    ensures RenameFrom(vs, |vs|, all) == []
  {
  }

  lemma NothingLeft(c: Schema, d: Schema, heap: Heap, ty: Ty, vs: seq<Value>, done: seq<Value>, m: Memo, got: seq<Id>,
                    refs: seq<Struct>, all: seq<Id>, v: Value)
    requires Ready(c, d, heap, m, got, refs)
    ensures InHeap(heap, got) && AllGood(ty, vs, |vs|) && NilsFirst(ty, vs, |vs|) && GoodFrom(d, heap, got, |got|)
    ensures done + RenameFrom(vs, |vs|, all) == done && IsCopy(d, heap, refs, got, got, all, v, Out(Dec(v, refs)))
  {
    hide WellTyped, ValidMemo, Compatible, Fits, GotFits, Copies, GoodFrom, AllGood, NilsFirst, RenameFrom, Ready,
         InHeap;
    ReadyParts(c, d, heap, m, got, refs);
    NoCopies(d, heap, got, refs, all);
    NoneLeft(ty, vs);
    RenameEnd(vs, all);
  }

  lemma ListJoin(d: Schema, heap: Heap, es: seq<Value>, k: nat, done: seq<Value>, got: seq<Id>, r: Trail, s: Trail,
                 all: seq<Id>, refs: seq<Struct>, a: Dec, good1: bool, good2: bool, o2: Outcome<Dec>)
    requires got <= r.got <= s.got && InHeap(heap, s.got) && InHeap(heap, r.got) && |refs| == |got|
    requires |a.refs| == |r.got| && k < |es|
    requires refs <= a.refs
    requires (o2.Out? ==> a.refs <= o2.value.refs && o2.value.v.List? && done + [a.v] <= o2.value.v.elems)
    requires good1 && r.aligned && GoodFrom(d, heap, r.got, |got|) <==>
      IsCopy(d, heap, refs, got, r.got, all, Rename(es[k], all), Out(a))
    requires good2 && s.aligned && GoodFrom(d, heap, s.got, |r.got|)
      <==> IsCopy(d, heap, a.refs, r.got, s.got, all, List((done + [a.v]) + RenameFrom(es, k + 1, all)), o2)
    ensures good1 && good2 && r.aligned && s.aligned && GoodFrom(d, heap, s.got, |got|)
      <==> IsCopy(d, heap, refs, got, s.got, all, List(done + RenameFrom(es, k, all)), o2)
  {
    hide Copies, GoodFrom, Rename, RenameFrom, InHeap;
    if o2.Out? {
      ValuesJoin(d, heap, es, k, done, got, r, s, all, refs, a, good1, good2, o2.value.v.elems, o2.value.refs);
    } else {
      GoodFromSplit(d, heap, r.got, s.got, |got|);
    }
  }

  lemma EntriesFollow(c: Schema, d: Schema, heap: Heap, ty: Ty, ks: seq<Bytes>, vs: seq<Value>, k: nat, m: Memo,
                      got: seq<Id>)
    requires WellTyped(c, heap) && ValidMemo(c, heap, m) && GotFits(heap, m, got)
    requires AllHaveType(c, heap, ty, vs) && |ks| == |vs| && ShortKeys(ks) && k < |vs|
    ensures HasType(c, heap, ty, vs[k])
    ensures var a, r := Encode(c, heap, ty, vs[k], m).memo, Follow(c, d, heap, ty, vs[k], m, got);
      && Unseen(heap, a.seen) <= Unseen(heap, m.seen) && ValidMemo(c, heap, a) && GotFits(heap, a, r.got)
           && got <= r.got
      && var s := FollowEntries(c, d, heap, ty, ks, vs, k + 1, a, r.got);
         FollowEntries(c, d, heap, ty, ks, vs, k, m, got) == Trail(s.got, r.aligned && s.aligned) && r.got <= s.got
  {
    hide WellTyped, ValidMemo, HasType, GotFits, Encode, Follow, Unseen, ShortKeys, EncodeEntries;
    UnseenShrinks(heap, m.seen, Encode(c, heap, ty, vs[k], m).memo.seen);
  }

  lemma EntriesInHeap(c: Schema, d: Schema, heap: Heap, ty: Ty, ks: seq<Bytes>, vs: seq<Value>, k: nat, m: Memo,
                      got: seq<Id>)
    requires WellTyped(c, heap) && ValidMemo(c, heap, m) && GotFits(heap, m, got)
    requires AllHaveType(c, heap, ty, vs) && |ks| == |vs| && ShortKeys(ks) && k <= |vs|
    ensures InHeap(heap, FollowEntries(c, d, heap, ty, ks, vs, k, m, got).got)
  {
    hide *;
    GotFitsIs(heap, EncodeEntries(c, heap, ty, ks, vs, k, m).memo,
      FollowEntries(c, d, heap, ty, ks, vs, k, m, got).got);
  }

  lemma EntriesExpect(c: Schema, d: Schema, heap: Heap, ty: Ty, ks: seq<Bytes>, vs: seq<Value>, k: nat,
                      done: seq<Value>, cur: Value, m: Memo, refs: seq<Struct>)
    requires WellTyped(c, heap) && ValidMemo(c, heap, m) && Compatible(c, d) && ValidRefs(d, refs)
    requires AllHaveType(c, heap, ty, vs) && |ks| == |vs| && ShortKeys(ks) && k < |vs|
    requires HasType(c, heap, ty, vs[k]) && ValidMemo(c, heap, Encode(c, heap, ty, vs[k], m).memo)
    ensures var a, o := Encode(c, heap, ty, vs[k], m).memo, Expect(c, d, heap, ty, vs[k], m, refs, cur);
      && (o.Crash? ==> ExpectEntries(c, d, heap, ty, ks, vs, k, done, cur, m, refs).Crash?)
      && (o.Out? ==>
            && ValidRefs(d, o.value.refs) && refs <= o.value.refs
            && ExpectEntries(c, d, heap, ty, ks, vs, k, done, cur, m, refs)
               == ExpectEntries(c, d, heap, ty, ks, vs, k + 1, done + [o.value.v], o.value.v, a, o.value.refs))
  {
    hide WellTyped, ValidMemo, HasType, AllHaveType, Compatible, ValidRefs, Encode, Expect, ShortKeys;
  }

  lemma EntriesEnd(c: Schema, d: Schema, heap: Heap, ty: Ty, ks: seq<Bytes>, vs: seq<Value>, done: seq<Value>,
                   cur: Value, m: Memo, got: seq<Id>, refs: seq<Struct>)
    requires Ready(c, d, heap, m, got, refs) && AllHaveType(c, heap, ty, vs) && |ks| == |vs| && ShortKeys(ks)
    ensures FollowEntries(c, d, heap, ty, ks, vs, |vs|, m, got) == Trail(got, true)
    ensures ExpectEntries(c, d, heap, ty, ks, vs, |vs|, done, cur, m, refs) == Out(Dec(Map(ks, done), refs))
  {
    hide WellTyped, ValidMemo, AllHaveType, Compatible, ValidRefs, GotFits, Fits, ShortKeys;
  }

  /** A nil map value leaves the loop variable as it was. */
  lemma StaleNil(c: Schema, d: Schema, heap: Heap, ty: Ty, m: Memo, got: seq<Id>, refs: seq<Struct>, cur: Value,
                 all: seq<Id>)
    requires Ready(c, d, heap, m, got, refs) && HasType(c, heap, ty, Nil) && !ty.TAny? && cur != Nil
    requires (cur.Ptr? ==> cur.id < |refs|)
    ensures Follow(c, d, heap, ty, Nil, m, got) == Trail(got, true)
    ensures OutFits(d, heap, got, Expect(c, d, heap, ty, Nil, m, refs, cur))
    ensures InHeap(heap, got) && !IsCopy(d, heap, refs, got, got, all, Nil, Expect(c, d, heap, ty, Nil, m, refs, cur))
  {
    hide WellTyped, ValidMemo, Compatible, ValidRefs, NoDup;
  }

  lemma EntriesJoin(d: Schema, heap: Heap, ks: seq<Bytes>, vs: seq<Value>, k: nat, done: seq<Value>, got: seq<Id>,
                    r: Trail, s: Trail, all: seq<Id>,
                    refs: seq<Struct>, a: Dec, good1: bool, good2: bool, o2: Outcome<Dec>)
    requires got <= r.got <= s.got && InHeap(heap, s.got) && InHeap(heap, r.got) && |refs| == |got|
    requires |a.refs| == |r.got| && k < |vs|
    requires refs <= a.refs
    requires (o2.Out? ==>
      a.refs <= o2.value.refs && o2.value.v.Map? && o2.value.v.keys == ks && done + [a.v] <= o2.value.v.vals)
    requires good1 && r.aligned && GoodFrom(d, heap, r.got, |got|) <==>
      IsCopy(d, heap, refs, got, r.got, all, Rename(vs[k], all), Out(a))
    requires IsCopy(d, heap, refs, got, r.got, all, Rename(vs[k], all), Out(a)) ==>
      (good2 && s.aligned && GoodFrom(d, heap, s.got, |r.got|)
       <==> IsCopy(d, heap, a.refs, r.got, s.got, all, Map(ks, (done + [a.v]) + RenameFrom(vs, k + 1, all)), o2))
    ensures good1 && good2 && r.aligned && s.aligned && GoodFrom(d, heap, s.got, |got|)
      <==> IsCopy(d, heap, refs, got, s.got, all, Map(ks, done + RenameFrom(vs, k, all)), o2)
  {
    hide Copies, GoodFrom, Rename, RenameFrom, InHeap;
    if o2.Out? {
      ValuesJoin(d, heap, vs, k, done, got, r, s, all, refs, a, good1, good2, o2.value.v.vals, o2.value.refs);
    } else {
      GoodFromSplit(d, heap, r.got, s.got, |got|);
    }
  }

  lemma RenameNil(v: Value, all: seq<Id>)
    ensures Rename(v, all).Nil? <==> v.Nil?
  {
  }

  lemma {:induction false} ExactEntries(c: Schema, d: Schema, heap: Heap, ty: Ty, ks: seq<Bytes>, vs: seq<Value>,
                                        k: nat, done: seq<Value>, cur: Value,
                                        m: Memo, got: seq<Id>, refs: seq<Struct>, all: seq<Id>)
    requires Ready(c, d, heap, m, got, refs) && AllHaveType(c, heap, ty, vs) && |ks| == |vs| && ShortKeys(ks)
    requires k <= |vs| && |done| == k
    requires FollowEntries(c, d, heap, ty, ks, vs, k, m, got).got <= all && NoDup(all)
    requires cur.Ptr? ==> cur.id < |refs|
    requires if k == 0 then cur == ZeroOf(Field(ty)) else cur.Nil? <==> vs[k - 1].Nil?
    ensures var f, o := FollowEntries(c, d, heap, ty, ks, vs, k, m, got),
      ExpectEntries(c, d, heap, ty, ks, vs, k, done, cur, m, refs);
      AllGood(ty, vs, k) && NilsFirst(ty, vs, k) && f.aligned && GoodFrom(d, heap, f.got, |got|)
      <==> IsCopy(d, heap, refs, got, f.got, all, Map(ks, done + RenameFrom(vs, k, all)), o)
    decreases Unseen(heap, m.seen), vs, |vs| - k
  {
    hide *;
    ReadyParts(c, d, heap, m, got, refs);
    if k == |vs| {
      EntriesEnd(c, d, heap, ty, ks, vs, done, cur, m, got, refs);
      NothingLeft(c, d, heap, ty, vs, done, m, got, refs, all, Map(ks, done));
    } else {
      EntriesFollow(c, d, heap, ty, ks, vs, k, m, got);
      EntriesExpect(c, d, heap, ty, ks, vs, k, done, cur, m, refs);
      var a, r := Encode(c, heap, ty, vs[k], m).memo, Follow(c, d, heap, ty, vs[k], m, got);
      var s := FollowEntries(c, d, heap, ty, ks, vs, k + 1, a, r.got);
      var o := Expect(c, d, heap, ty, vs[k], m, refs, cur);
      EntriesInHeap(c, d, heap, ty, ks, vs, k + 1, a, r.got);
      GoodEntries(ty, vs, k);
      ExactEntryAt(c, d, heap, ty, vs, k, m, got, refs, cur, all);
      var good1 := GoodEntry(ty, vs, k);
      if o.Out? {
        ReadyAfter(c, d, heap, a, r.got, o.value.refs);
        if IsCopy(d, heap, refs, got, r.got, all, Rename(vs[k], all), o) {
          ExactEntries(c, d, heap, ty, ks, vs, k + 1, done + [o.value.v], o.value.v, a, r.got, o.value.refs, all);
        }
        var o2 := ExpectEntries(c, d, heap, ty, ks, vs, k + 1, done + [o.value.v], o.value.v, a, o.value.refs);
        EntriesJoin(d, heap, ks, vs, k, done, got, r, s, all, refs, o.value, good1, AllGood(ty, vs, k + 1)
          && NilsFirst(ty, vs, k + 1), o2);
      } else {
        CrashJoin(d, heap, got, r, s, all, refs, good1, AllGood(ty, vs, k + 1)
          && NilsFirst(ty, vs, k + 1), Rename(vs[k], all),
                  Map(ks, done + RenameFrom(vs, k, all)));
      }
    }
  }

  /** Entry `k` of a map, after the one before it. */
  predicate GoodEntry(ty: Ty, vs: seq<Value>, k: nat)
    requires k < |vs|
  {
    GoodValue(ty, vs[k]) && (k > 0 && vs[k].Nil? && !ty.TAny? ==> vs[k - 1].Nil?)
  }

  lemma GoodEntries(ty: Ty, vs: seq<Value>, k: nat)
    requires k < |vs|
    ensures AllGood(ty, vs, k) && NilsFirst(ty, vs, k) <==>
      GoodEntry(ty, vs, k) && AllGood(ty, vs, k + 1) && NilsFirst(ty, vs, k + 1)
  {
    hide AllGood, NilsFirst, GoodValue;
    GoodSplit(ty, vs, k);
  }

  lemma {:induction false} ExactEntryAt(c: Schema, d: Schema, heap: Heap, ty: Ty, vs: seq<Value>, k: nat, m: Memo,
                                        got: seq<Id>, refs: seq<Struct>, cur: Value, all: seq<Id>)
    requires Ready(c, d, heap, m, got, refs) && k < |vs| && HasType(c, heap, ty, vs[k])
    requires (cur.Ptr? ==> cur.id < |refs|)
    requires Follow(c, d, heap, ty, vs[k], m, got).got <= all && NoDup(all)
    requires if k == 0 then cur == ZeroOf(Field(ty)) else cur.Nil? <==> vs[k - 1].Nil?
    ensures InHeap(heap, Follow(c, d, heap, ty, vs[k], m, got).got)
    ensures var f, o := Follow(c, d, heap, ty, vs[k], m, got), Expect(c, d, heap, ty, vs[k], m, refs, cur);
      GoodEntry(ty, vs, k) && f.aligned && GoodFrom(d, heap, f.got, |got|) <==>
        IsCopy(d, heap, refs, got, f.got, all, Rename(vs[k], all), o)
    ensures var f, o := Follow(c, d, heap, ty, vs[k], m, got), Expect(c, d, heap, ty, vs[k], m, refs, cur);
      o.Out? ==>
        && Fits(d, heap, f.got, o.value.refs) && |o.value.refs| == |f.got|
             && (o.value.v.Ptr? ==> o.value.v.id < |o.value.refs|)
        && (IsCopy(d, heap, refs, got, f.got, all, Rename(vs[k], all), o) ==> (o.value.v.Nil? <==> vs[k].Nil?))
    decreases Unseen(heap, m.seen), vs[k], 3
  {
    hide WellTyped, ValidMemo, Compatible, ValidRefs, Fits, GotFits, Ready, Unseen, Encode, HasType, Expect, Follow,
         GoodValue, Rename, Copies, GoodFrom, InHeap, NoDup, IsCopy;
    ReadyParts(c, d, heap, m, got, refs);
    GotFitsIs(heap, Encode(c, heap, ty, vs[k], m).memo, Follow(c, d, heap, ty, vs[k], m, got).got);
    if vs[k].Nil? && !ty.TAny? {
      NilZero(c, heap, ty, vs[k]);
    }
    ExactEntry(c, d, heap, ty, vs[k], m, got, refs, cur, all);
    FitsValue(c, d, heap, ty, vs[k], m, got, refs, cur);
    var f, o := Follow(c, d, heap, ty, vs[k], m, got), Expect(c, d, heap, ty, vs[k], m, refs, cur);
    RenameNil(vs[k], all);
    CopyValue(d, heap, refs, got, f.got, all, Rename(vs[k], all), o);
    if o.Out? {
      OutFitsIs(d, heap, f.got, o);
    }
  }

  lemma CopyValue(d: Schema, heap: Heap, refs: seq<Struct>, got: seq<Id>, got': seq<Id>, all: seq<Id>, v: Value,
                  o: Outcome<Dec>)
    requires got <= got' && InHeap(heap, got')
    ensures IsCopy(d, heap, refs, got, got', all, v, o) ==> o.Out? && o.value.v == v
  {
  }

  /** One value of a map, decoded into the loop variable. */
  lemma {:induction false} ExactEntry(c: Schema, d: Schema, heap: Heap, ty: Ty, v: Value, m: Memo, got: seq<Id>,
                                      refs: seq<Struct>, cur: Value, all: seq<Id>)
    requires Ready(c, d, heap, m, got, refs) && HasType(c, heap, ty, v) && (cur.Ptr? ==> cur.id < |refs|)
    requires Follow(c, d, heap, ty, v, m, got).got <= all && NoDup(all)
    ensures var f, o := Follow(c, d, heap, ty, v, m, got), Expect(c, d, heap, ty, v, m, refs, cur);
      GoodValue(ty, v) && (v.Nil? && !ty.TAny? ==> cur.Nil?) && f.aligned && GoodFrom(d, heap, f.got, |got|)
      <==> IsCopy(d, heap, refs, got, f.got, all, Rename(v, all), o)
    decreases Unseen(heap, m.seen), v, 2
  {
    hide *;
    ReadyParts(c, d, heap, m, got, refs);
    GotFitsIs(heap, Encode(c, heap, ty, v, m).memo, Follow(c, d, heap, ty, v, m, got).got);
    if v.Nil? && !ty.TAny? && cur != Nil {
      RenameNil(v, all);
      StaleNil(c, d, heap, ty, m, got, refs, cur, all);
    } else {
      Exact(c, d, heap, ty, v, m, got, refs, cur, all);
    }
  }
}
