/** The struct, slice and map encoders and decoders that the codec generates
    (internal/godoc/encode_ast.gen.go), as one pair driven by a schema, over graphs of
    structs that may share and form cycles.

    A struct in memory is a cell of a heap, and a pointer is the cell's key. The decoder
    allocates its structs in the order it meets them, so its heap is a sequence. */
module CodecGraph {
  import opened Basics
  import opened CodecBytes

  type Id = nat

  /** Static types of fields and list elements. `TAny` is an interface read with
      `DecodeAny()` alone; `TIface` one read with `DecodeAny().(I)`, which panics on nil. */
  datatype Ty =
    | TInt
    | TBool
    | TStr
    | TPtr(struct: nat)
    | TAny
    | TIface
    | TSlice(elem: Ty)
    | TMap(elem: Ty)

  /** A value. `Nil` is the nil pointer, slice, map or interface. A map is given by its
      keys and values in the order in which `range` meets them. */
  datatype Value =
    | Int(i: Int64)
    | Bool(b: bool)
    | Str(s: Bytes)
    | Nil
    | Ptr(id: Id)
    | Any(t: Ty, v: Value)
    | List(elems: seq<Value>)
    | Map(keys: seq<Bytes>, vals: seq<Value>)

  datatype Struct = Struct(name: nat, fields: seq<Value>)

  datatype FieldTy = Field(ty: Ty) | Retired

  /** `structs[n]` lists the fields of struct type `n`; a field's number is its position.
      `registered` is the set of types known to `Register`. */
  datatype Schema = Schema(structs: seq<seq<FieldTy>>, registered: set<Ty>)

  type Heap = map<Id, Struct>

  predicate IsZero(v: Value) {
    v == Int(0) || v == Bool(false) || v == Str([]) || v == Nil
  }

  function ZeroOf(f: FieldTy): (v: Value)
    ensures IsZero(v)
  {
    match f
    case Field(TInt) => Int(0)
    case Field(TBool) => Bool(false)
    case Field(TStr) => Str([])
    case _ => Nil
  }

  function ZeroStruct(c: Schema, name: nat): Struct
    requires name < |c.structs|
  {
    Struct(name, seq(|c.structs[name]|, i requires 0 <= i < |c.structs[name]| => ZeroOf(c.structs[name][i])))
  }

  predicate Concrete(t: Ty) {
    !t.TAny? && !t.TIface?
  }

  /** `v` is a Go value of type `ty` whose pointers lead into `heap`. Lengths fit an int. */
  predicate HasType(c: Schema, heap: Heap, ty: Ty, v: Value)
    decreases v
  {
    match ty
    case TInt => v.Int?
    case TBool => v.Bool?
    case TStr => v.Str? && |v.s| < TWO_63
    case TPtr(n) => v.Nil? || (v.Ptr? && v.id in heap && heap[v.id].name == n)
    case TAny => v.Nil? || (v.Any? && Concrete(v.t) && v.t in c.registered && HasType(c, heap, v.t, v.v))
    case TIface => v.Nil? || (v.Any? && Concrete(v.t) && v.t in c.registered && HasType(c, heap, v.t, v.v))
    case TSlice(e) => v.Nil? || (v.List? && |v.elems| < TWO_63 && AllHaveType(c, heap, e, v.elems))
    case TMap(e) =>
      v.Nil? || (v.Map? && |v.keys| == |v.vals| && 2 * |v.keys| < TWO_63
                 && ShortKeys(v.keys)
                 && NoDup(v.keys)
                 && AllHaveType(c, heap, e, v.vals))
  }

  predicate AllHaveType(c: Schema, heap: Heap, ty: Ty, vs: seq<Value>)
    decreases vs
  {
    forall i :: 0 <= i < |vs| ==> HasType(c, heap, ty, vs[i])
  }

  lemma ElementAt(c: Schema, heap: Heap, ty: Ty, vs: seq<Value>, k: nat)
    requires AllHaveType(c, heap, ty, vs) && k < |vs|
    ensures HasType(c, heap, ty, vs[k])
  {
    hide HasType;
  }

  predicate FieldHasType(c: Schema, heap: Heap, f: FieldTy, v: Value) {
    if f.Retired? then v == Nil else HasType(c, heap, f.ty, v)
  }

  predicate FieldsHaveType(c: Schema, heap: Heap, fts: seq<FieldTy>, fs: seq<Value>) {
    |fts| == |fs| && forall i :: 0 <= i < |fs| ==> FieldHasType(c, heap, fts[i], fs[i])
  }

  predicate StructHasType(c: Schema, heap: Heap, x: Struct) {
    x.name < |c.structs| && FieldsHaveType(c, heap, c.structs[x.name], x.fields)
  }

  predicate WellTyped(c: Schema, heap: Heap) {
    && |heap| < TWO_63 && |c.registered| < TWO_63
    && (forall n :: 0 <= n < |c.structs| ==> |c.structs[n]| < TWO_63)
    && forall id :: id in heap ==> StructHasType(c, heap, heap[id])
  }

  // ---------------------------------------------------------------- encoder

  /** The encoder's memory: the struct pointers and the dynamic types it has met, each in
      the order of first meeting, so that a position is the number written to the stream. */
  datatype Memo = Memo(seen: seq<Id>, types: seq<Ty>)

  predicate ValidMemo(c: Schema, heap: Heap, m: Memo) {
    && NoDup(m.seen) && (forall i :: 0 <= i < |m.seen| ==> m.seen[i] in heap)
    && NoDup(m.types) && (forall i :: 0 <= i < |m.types| ==> m.types[i] in c.registered)
  }

  predicate Extends(m: Memo, m': Memo) {
    m.seen <= m'.seen && m.types <= m'.types
  }

  function IndexOf<T(==)>(s: seq<T>, x: T): (i: nat)
    ensures x in s ==> i < |s| && s[i] == x
    ensures x !in s ==> i == |s|
  {
    if s == [] || s[0] == x then 0 else 1 + IndexOf(s[1..], x)
  }

  lemma {:induction false} NoDupSize<T>(s: seq<T>, all: set<T>)
    requires NoDup(s) && Elements(s) <= all
    ensures |s| <= |all| && |all - Elements(s)| == |all| - |s|
  {
    if s == [] {
      assert all - Elements(s) == all;
    } else {
      var t := s[..|s| - 1];
      var x := s[|s| - 1];
      assert s == t + [x];
      NoDupSize(t, all);
      assert x !in Elements(t);
      assert all - Elements(s) == (all - Elements(t)) - {x};
    }
  }

  /** How many structs of the heap the encoder has not met yet. */
  ghost function Unseen(heap: Heap, seen: seq<Id>): nat {
    |heap.Keys - Elements(seen)|
  }

  lemma UnseenShrinks(heap: Heap, s: seq<Id>, s': seq<Id>)
    requires s <= s'
    ensures Unseen(heap, s') <= Unseen(heap, s)
  {
    assert heap.Keys - Elements(s') <= heap.Keys - Elements(s);
    SubsetSize(heap.Keys - Elements(s'), heap.Keys - Elements(s));
  }

  lemma {:induction false} SubsetSize<T>(a: set<T>, b: set<T>)
    requires a <= b
    ensures |a| <= |b|
    ensures a != b ==> |a| < |b|
  {
    if a != {} {
      var x :| x in a;
      SubsetSize(a - {x}, b - {x});
    }
  }

  lemma UnseenDrops(heap: Heap, seen: seq<Id>, id: Id)
    requires id in heap && id !in seen
    ensures Unseen(heap, seen + [id]) < Unseen(heap, seen)
  {
    var a, b := heap.Keys - Elements(seen + [id]), heap.Keys - Elements(seen);
    assert id in b && id !in a;
    assert a <= b by {
      assert forall x :: x in seen ==> x in seen + [id];
    }
    SubsetSize(a, b);
  }

  function Meet(m: Memo, id: Id): Memo {
    m.(seen := m.seen + [id])
  }

  lemma MeetValid(c: Schema, heap: Heap, m: Memo, id: Id)
    requires ValidMemo(c, heap, m) && id in heap && id !in m.seen
    ensures ValidMemo(c, heap, Meet(m, id)) && Unseen(heap, Meet(m, id).seen) < Unseen(heap, m.seen)
  {
    UnseenDrops(heap, m.seen, id);
  }

  datatype Encoded = Encoded(bytes: Bytes, memo: Memo)

  /** What every encoding step keeps: it only adds to the memo, and the memo stays valid. */
  predicate Keeps(c: Schema, heap: Heap, m: Memo, r: Encoded) {
    Extends(m, r.memo) && ValidMemo(c, heap, r.memo)
  }

  function MemoType(m: Memo, t: Ty): Memo {
    if t in m.types then m else m.(types := m.types + [t])
  }

  lemma MemoTypeValid(c: Schema, heap: Heap, m: Memo, t: Ty)
    requires ValidMemo(c, heap, m) && t in c.registered
    ensures ValidMemo(c, heap, MemoType(m, t)) && t in MemoType(m, t).types && Extends(m, MemoType(m, t))
  {
    assert t !in m.types ==> (m.types + [t])[|m.types|] == t;
  }

  lemma SeenIsSmall(c: Schema, heap: Heap, m: Memo)
    requires ValidMemo(c, heap, m) && WellTyped(c, heap)
    ensures |m.seen| < TWO_63 && |m.types| < TWO_63
  {
    NoDupSize(m.seen, heap.Keys);
    NoDupSize(m.types, c.registered);
  }

  function Encode(c: Schema, heap: Heap, ty: Ty, v: Value, m: Memo): (r: Encoded)
    requires WellTyped(c, heap) && ValidMemo(c, heap, m) && HasType(c, heap, ty, v)
    ensures Keeps(c, heap, m, r) && |r.bytes| > 0
    decreases Unseen(heap, m.seen), v, 1
  {
    match v
    case Int(i) => Encoded(EncodeInt(i), m)
    case Bool(b) => Encoded(EncodeBool(b), m)
    case Str(s) => Encoded(EncodeString(s), m)
    case Nil => Encoded(if ty.TAny? || ty.TIface? then [0] else [NIL_CODE], m)
    case Ptr(id) => EncodePtr(c, heap, id, m)
    case Any(t, w) => EncodeAny(c, heap, t, w, m)
    case List(es) =>
      var r := EncodeList(c, heap, ty.elem, es, 0, m);
      Encoded(ListHeader(|es|) + r.bytes, r.memo)
    case Map(ks, vs) =>
      var r := EncodeEntries(c, heap, ty.elem, ks, vs, 0, m);
      Encoded(ListHeader(2 * |ks|) + r.bytes, r.memo)
  }

  function EncodePtr(c: Schema, heap: Heap, id: Id, m: Memo): (r: Encoded)
    requires WellTyped(c, heap) && ValidMemo(c, heap, m) && id in heap
    ensures Keeps(c, heap, m, r) && |r.bytes| > 0
    decreases Unseen(heap, m.seen), Ptr(id), 0
  {
    SeenIsSmall(c, heap, m);
    if id in m.seen then
      Encoded([REF_CODE] + EncodeUint(IndexOf(m.seen, id)), m)
    else
      MeetValid(c, heap, m, id);
      var x := heap[id];
      var r := EncodeFields(c, heap, c.structs[x.name], x.fields, 0, Meet(m, id));
      Encoded([START_CODE] + r.bytes + [END_CODE], r.memo)
  }

  function EncodeAny(c: Schema, heap: Heap, t: Ty, w: Value, m: Memo): (r: Encoded)
    requires WellTyped(c, heap) && ValidMemo(c, heap, m) && t in c.registered && HasType(c, heap, t, w)
    ensures Keeps(c, heap, m, r) && |r.bytes| > 0
    decreases Unseen(heap, m.seen), w, 2
  {
    var m1 := MemoType(m, t);
    MemoTypeValid(c, heap, m, t);
    SeenIsSmall(c, heap, m1);
    var r := Encode(c, heap, t, w, m1);
    Encoded(ListHeader(2) + EncodeUint(IndexOf(m1.types, t)) + r.bytes, r.memo)
  }

  function EncodeList(c: Schema, heap: Heap, ty: Ty, es: seq<Value>, k: nat, m: Memo): (r: Encoded)
    requires WellTyped(c, heap) && ValidMemo(c, heap, m) && AllHaveType(c, heap, ty, es) && k <= |es|
    ensures Keeps(c, heap, m, r)
    decreases Unseen(heap, m.seen), es, |es| - k
  {
    if k == |es| then Encoded([], m)
    else
      var a := Encode(c, heap, ty, es[k], m);
      UnseenShrinks(heap, m.seen, a.memo.seen);
      var b := EncodeList(c, heap, ty, es, k + 1, a.memo);
      Encoded(a.bytes + b.bytes, b.memo)
  }

  /** After an element the memo is valid, and no more structs are left to meet. */
  lemma AfterElement(c: Schema, heap: Heap, ty: Ty, vs: seq<Value>, k: nat, m: Memo)
    requires WellTyped(c, heap) && ValidMemo(c, heap, m) && AllHaveType(c, heap, ty, vs) && k < |vs|
    ensures HasType(c, heap, ty, vs[k])
    ensures var a := Encode(c, heap, ty, vs[k], m).memo;
      ValidMemo(c, heap, a) && Unseen(heap, a.seen) <= Unseen(heap, m.seen)
  {
    hide WellTyped, ValidMemo, HasType, Unseen, Encode, AllHaveType;
    ElementAt(c, heap, ty, vs, k);
    UnseenShrinks(heap, m.seen, Encode(c, heap, ty, vs[k], m).memo.seen);
  }

  predicate ShortKeys(ks: seq<Bytes>) {
    forall i :: 0 <= i < |ks| ==> |ks[i]| < TWO_63
  }

  function EncodeEntries(c: Schema, heap: Heap, ty: Ty, ks: seq<Bytes>, vs: seq<Value>, k: nat, m: Memo): (r: Encoded)
    requires WellTyped(c, heap) && ValidMemo(c, heap, m) && AllHaveType(c, heap, ty, vs)
    requires |ks| == |vs| && ShortKeys(ks) && k <= |ks|
    ensures Keeps(c, heap, m, r)
    decreases Unseen(heap, m.seen), vs, |vs| - k
  {
    if k == |ks| then Encoded([], m)
    else
      var a := Encode(c, heap, ty, vs[k], m);
      UnseenShrinks(heap, m.seen, a.memo.seen);
      var b := EncodeEntries(c, heap, ty, ks, vs, k + 1, a.memo);
      Encoded(EncodeString(ks[k]) + a.bytes + b.bytes, b.memo)
  }

  /** Fields `k`, `k+1`, ... of a struct: only the non-zero ones, each after its number. */
  function EncodeFields(c: Schema, heap: Heap, fts: seq<FieldTy>, fs: seq<Value>, k: nat, m: Memo): (r: Encoded)
    requires WellTyped(c, heap) && ValidMemo(c, heap, m) && FieldsHaveType(c, heap, fts, fs)
    requires k <= |fs| < TWO_63
    ensures Keeps(c, heap, m, r)
    decreases Unseen(heap, m.seen), fs, |fs| - k
  {
    if k == |fs| then Encoded([], m)
    else if IsZero(fs[k]) then EncodeFields(c, heap, fts, fs, k + 1, m)
    else
      assert FieldHasType(c, heap, fts[k], fs[k]);
      var a := Encode(c, heap, fts[k].ty, fs[k], m);
      UnseenShrinks(heap, m.seen, a.memo.seen);
      var b := EncodeFields(c, heap, fts, fs, k + 1, a.memo);
      Encoded(EncodeUint(k) + a.bytes + b.bytes, b.memo)
  }
}
