/** The encoder as it runs (internal/godoc/codec/codec.go and internal/godoc/encode_ast.gen.go):
    a growing buffer, tables of struct pointers and types, and loops over elements, entries and
    fields. It is proved to do what the functions on byte sequences say. */
module CodecEncoder {
  import opened Basics
  import opened CodecBytes
  import opened CodecGraph
  import opened CodecClosed
  import opened CodecStream

  /** A table that numbers things in the order of first meeting. */
  ghost predicate Numbers<T(!new)>(table: map<T, nat>, met: seq<T>) {
    && NoDup(met) && |table| == |met| && (forall x :: x in table <==> x in met)
    && forall x :: x in table ==> table[x] == IndexOf(met, x)
  }

  lemma NumbersMore<T(!new)>(table: map<T, nat>, met: seq<T>, x: T)
    requires Numbers(table, met) && x !in met
    ensures Numbers(table[x := |table|], met + [x])
  {
    hide IndexOf;
    var table', met' := table[x := |table|], met + [x];
    GrowsByOne(table, x);
    forall y
      ensures (y in table' <==> y in met') && (y in table' ==> table'[y] == IndexOf(met', y))
    {
      NumberMore(table, met, x, y);
    }
  }

  lemma GrowsByOne<T(!new)>(table: map<T, nat>, x: T)
    requires x !in table
    ensures |table[x := |table|]| == |table| + 1
  {
    var table' := table[x := |table|];
    assert table'.Keys == table.Keys + {x} && |table'| == |table'.Keys| && |table| == |table.Keys|;
  }

  lemma NumberMore<T(!new)>(table: map<T, nat>, met: seq<T>, x: T, y: T)
    requires Numbers(table, met) && x !in met
    ensures var table', met' := table[x := |table|], met + [x];
      (y in table' <==> y in met') && (y in table' ==> table'[y] == IndexOf(met', y))
  {
    hide IndexOf;
    if y == x {
      IndexOfAt(met + [x], |met|);
    } else if y in met {
      IndexOfGrows(met, met + [x], y);
    }
  }

  class Encoder {
    var buf: Bytes
    var typeNums: map<Ty, nat>
    var seen: map<Id, nat>
    ghost var memo: Memo

    ghost predicate Valid()
      reads this
    {
      Numbers(typeNums, memo.types) && Numbers(seen, memo.seen)
    }

    constructor ()
      ensures Valid() && buf == [] && memo == Memo([], [])
    {
      buf, typeNums, seen, memo := [], map[], map[], Memo([], []);
    }

    method WriteUint(u: Uint64)
      modifies this`buf
      ensures buf == old(buf) + EncodeUint(u)
    {
      hide LittleEndian;
      if u < END_CODE {
        buf := buf + [u];
      } else if u < TWO_32 {
        buf := buf + [N_BYTES_CODE];
        buf := buf + [4];
        buf := buf + LittleEndian(u, 4);
      } else {
        buf := buf + [N_BYTES_CODE];
        buf := buf + [8];
        buf := buf + LittleEndian(u, 8);
      }
    }

    method WriteString(s: Bytes)
      requires |s| < TWO_63
      modifies this`buf
      ensures buf == old(buf) + EncodeString(s)
    {
      hide EncodeUint;
      buf := buf + [N_BYTES_CODE];
      WriteUint(|s|);
      buf := buf + s;
    }

    method StartList(n: nat)
      requires n < TWO_63
      modifies this`buf
      ensures buf == old(buf) + ListHeader(n)
    {
      hide EncodeUint;
      buf := buf + [N_VALUES_CODE];
      WriteUint(n);
    }

    /** Notes a struct pointer, or writes a reference to one that was met before. */
    method StartStruct(c: Schema, heap: Heap, id: Id) returns (go: bool)
      requires Valid() && WellTyped(c, heap) && ValidMemo(c, heap, memo) && id in heap
      modifies this`buf, this`seen, this`memo
      ensures Valid() && go == (id !in old(memo).seen)
      ensures go ==> buf == old(buf) + [START_CODE] && memo == Meet(old(memo), id)
      ensures !go ==>
        memo == old(memo) && IndexOf(memo.seen, id) < TWO_64
          && buf == old(buf) + ([REF_CODE] + EncodeUint(IndexOf(memo.seen, id)))
    {
      hide EncodeUint, WellTyped, ValidMemo, Numbers;
      assert id in seen <==> id in memo.seen by { NumberOf(seen, memo.seen, id); }
      if id in seen {
        SeenIsSmall(c, heap, memo);
        NumberOf(seen, memo.seen, id);
        buf := buf + [REF_CODE];
        WriteUint(seen[id]);
        return false;
      }
      NumbersMore(seen, memo.seen, id);
      seen, memo := seen[id := |seen|], Meet(memo, id);
      buf := buf + [START_CODE];
      go := true;
    }

    /** `EncodeAny`, up to the value itself. */
    method StartAny(c: Schema, heap: Heap, t: Ty)
      requires Valid() && WellTyped(c, heap) && ValidMemo(c, heap, memo) && t in c.registered
      modifies this`buf, this`typeNums, this`memo
      ensures Valid() && memo == MemoType(old(memo), t) && ValidMemo(c, heap, memo) && IndexOf(memo.types, t) < TWO_64
      ensures buf == old(buf) + (ListHeader(2) + EncodeUint(IndexOf(memo.types, t)))
    {
      hide EncodeUint, WellTyped, ValidMemo, Numbers, ListHeader;
      MemoTypeValid(c, heap, memo, t);
      SeenIsSmall(c, heap, MemoType(memo, t));
      NumberOf(typeNums, memo.types, t);
      if t !in typeNums {
        NumbersMore(typeNums, memo.types, t);
        typeNums := typeNums[t := |typeNums|];
      }
      memo := MemoType(memo, t);
      NumberOf(typeNums, memo.types, t);
      StartList(2);
      WriteUint(typeNums[t]);
    }

    /** `encodeInitial`, after the names are sorted out. */
    method WriteNames(g: Registry, names: seq<Bytes>, ghost types: seq<Ty>)
      requires Named(g, types) && |names| == |types| < TWO_63 && forall i :: 0 <= i < |types| ==>
        NameIs(g, types[i], names[i])
      modifies this`buf
      ensures buf == old(buf) + ListHeader(|types|) + EncodeNames(g, types)
    {
      hide *;
      StartList(|names|);
      assert types[0..] == types;
      for k := 0 to |names|
        invariant Named(g, types[k..])
        invariant buf + EncodeNames(g, types[k..]) == old(buf) + ListHeader(|types|) + EncodeNames(g, types)
      {
        NamesStep(g, types, k, names[k]);
        WriteString(names[k]);
      }
      NoNames(g, types);
    }

    /** The whole stream: the names of the types met, then the data. */
    method Bytes(g: Registry) returns (r: CodecBytes.Bytes)
      requires Valid() && Named(g, memo.types) && |memo.types| < TWO_63
      modifies this`buf
      ensures r == ListHeader(|memo.types|) + EncodeNames(g, memo.types) + old(buf)
    {
      hide *;
      ValidTypes();
      var data := buf;
      buf := [];
      var names := TypeNames(g, typeNums, memo.types);
      WriteNames(g, names, memo.types);
      r := buf + data;
    }

    lemma ValidTypes()
      requires Valid()
      ensures Numbers(typeNums, memo.types)
    {
      hide Numbers;
    }

    /** Encodes a value of a static type, as the generated encoders do. */
    method EncodeValue(c: Schema, heap: Heap, ty: Ty, v: Value)
      requires Valid() && WellTyped(c, heap) && ValidMemo(c, heap, memo) && HasType(c, heap, ty, v)
      modifies this
      ensures Valid() && Wrote(old(buf), Encode(c, heap, ty, v, old(memo)), buf, memo)
      decreases Unseen(heap, memo.seen), v, 1
    {
      hide WellTyped, ValidMemo, Numbers, Unseen, EncodePtr, EncodeAny, EncodeList, EncodeEntries, AllHaveType, NoDup,
           ShortKeys, ListHeader, EncodeString, EncodeUint;
      match v
      case Int(i) => WriteUint(ZigZag(i));
      case Bool(b) => buf := buf + if b then [1] else [0];
      case Str(s) => WriteString(s);
      case Nil => buf := buf + if ty.TAny? || ty.TIface? then [0] else [NIL_CODE];
      case Ptr(id) => EncodeStruct(c, heap, id);
      case Any(t, w) => EncodeDynamic(c, heap, t, w);
      case List(es) =>
        StartList(|es|);
        EncodeSlice(c, heap, ty.elem, es);
      case Map(ks, vs) =>
        StartList(2 * |ks|);
        EncodeMap(c, heap, ty.elem, ks, vs);
    }

    method EncodeDynamic(c: Schema, heap: Heap, t: Ty, w: Value)
      requires Valid() && WellTyped(c, heap) && ValidMemo(c, heap, memo) && t in c.registered && HasType(c, heap, t, w)
      modifies this
      ensures Valid() && Wrote(old(buf), EncodeAny(c, heap, t, w, old(memo)), buf, memo)
      decreases Unseen(heap, memo.seen), w, 2
    {
      hide WellTyped, ValidMemo, Numbers, Unseen, Encode, HasType, ListHeader, EncodeUint;
      StartAny(c, heap, t);
      EncodeValue(c, heap, t, w);
    }

    method EncodeStruct(c: Schema, heap: Heap, id: Id)
      requires Valid() && WellTyped(c, heap) && ValidMemo(c, heap, memo) && id in heap
      modifies this
      ensures Valid() && Wrote(old(buf), EncodePtr(c, heap, id, old(memo)), buf, memo)
      decreases Unseen(heap, memo.seen), Ptr(id), 0
    {
      hide ValidMemo, Numbers, Unseen, EncodeFields, HasType, EncodeUint;
      ghost var m := memo;
      var go := StartStruct(c, heap, id);
      if go {
        MeetValid(c, heap, m, id);
        EncodeStructFields(c, heap, c.structs[heap[id].name], heap[id].fields);
        buf := buf + [END_CODE];
      }
    }

    method EncodeSlice(c: Schema, heap: Heap, ty: Ty, es: seq<Value>)
      requires Valid() && WellTyped(c, heap) && ValidMemo(c, heap, memo) && AllHaveType(c, heap, ty, es)
      modifies this
      ensures Valid() && Wrote(old(buf), EncodeList(c, heap, ty, es, 0, old(memo)), buf, memo)
      decreases Unseen(heap, memo.seen), es, |es|
    {
      hide WellTyped, ValidMemo, Numbers, Unseen, Encode, HasType, EncodeList;
      ghost var all := EncodeList(c, heap, ty, es, 0, memo);
      for k := 0 to |es|
        invariant Valid() && ValidMemo(c, heap, memo) && Unseen(heap, memo.seen) <= Unseen(heap, old(memo).seen)
        invariant buf + EncodeList(c, heap, ty, es, k, memo).bytes == old(buf) + all.bytes
        invariant EncodeList(c, heap, ty, es, k, memo).memo == all.memo
      {
        ListStep(c, heap, ty, es, k, memo);
        EncodeValue(c, heap, ty, es[k]);
      }
      ListEnd(c, heap, ty, es, memo);
    }

    method EncodeMap(c: Schema, heap: Heap, ty: Ty, ks: seq<Bytes>, vs: seq<Value>)
      requires Valid() && WellTyped(c, heap) && ValidMemo(c, heap, memo) && AllHaveType(c, heap, ty, vs)
      requires |ks| == |vs| && ShortKeys(ks)
      modifies this
      ensures Valid() && Wrote(old(buf), EncodeEntries(c, heap, ty, ks, vs, 0, old(memo)), buf, memo)
      decreases Unseen(heap, memo.seen), vs, |vs|
    {
      hide WellTyped, ValidMemo, Numbers, Unseen, Encode, HasType, EncodeString, EncodeEntries;
      ghost var all := EncodeEntries(c, heap, ty, ks, vs, 0, memo);
      for k := 0 to |ks|
        invariant Valid() && ValidMemo(c, heap, memo) && Unseen(heap, memo.seen) <= Unseen(heap, old(memo).seen)
        invariant buf + EncodeEntries(c, heap, ty, ks, vs, k, memo).bytes == old(buf) + all.bytes
        invariant EncodeEntries(c, heap, ty, ks, vs, k, memo).memo == all.memo
      {
        EntriesStep(c, heap, ty, ks, vs, k, memo);
        WriteString(ks[k]);
        EncodeValue(c, heap, ty, vs[k]);
      }
      EntriesEnd(c, heap, ty, ks, vs, memo);
    }

    /** Writes the number and the value of every field that is not zero. */
    method EncodeStructFields(c: Schema, heap: Heap, fts: seq<FieldTy>, fs: seq<Value>)
      requires Valid() && WellTyped(c, heap) && ValidMemo(c, heap, memo) && FieldsHaveType(c, heap, fts, fs)
      requires |fs| < TWO_63
      modifies this
      ensures Valid() && Wrote(old(buf), EncodeFields(c, heap, fts, fs, 0, old(memo)), buf, memo)
      decreases Unseen(heap, memo.seen), fs, |fs|
    {
      hide WellTyped, ValidMemo, Numbers, Unseen, Encode, HasType, EncodeUint, IsZero, EncodeFields;
      ghost var all := EncodeFields(c, heap, fts, fs, 0, memo);
      for k := 0 to |fs|
        invariant Valid() && ValidMemo(c, heap, memo) && Unseen(heap, memo.seen) <= Unseen(heap, old(memo).seen)
        invariant buf + EncodeFields(c, heap, fts, fs, k, memo).bytes == old(buf) + all.bytes
        invariant EncodeFields(c, heap, fts, fs, k, memo).memo == all.memo
      {
        FieldsStep(c, heap, fts, fs, k, memo);
        if !IsZero(fs[k]) {
          WriteUint(k);
          EncodeValue(c, heap, fts[k].ty, fs[k]);
        }
      }
      FieldsEnd(c, heap, fts, fs, memo);
    }
  }

  /** The names of the types met, by number; the table is met in any order. */
  method TypeNames(g: Registry, table: map<Ty, nat>, ghost types: seq<Ty>) returns (names: seq<Bytes>)
    requires Numbers(table, types) && Named(g, types)
    ensures |names| == |types| && forall i :: 0 <= i < |types| ==> NameIs(g, types[i], names[i])
  {
    hide Numbers;
    names := seq(|table|, _ => []);
    var left := table.Keys;
    NumbersAt(table, types);
    while left != {}
      invariant left <= table.Keys && |names| == |types|
      invariant forall i :: 0 <= i < |types| && types[i] !in left ==> names[i] == g.names[types[i]]
      decreases left
    {
      var t :| t in left;
      NumberOf(table, types, t);
      names := names[table[t] := g.names[t]];
      left := left - {t};
    }
  }

  lemma NumbersAt<T(!new)>(table: map<T, nat>, met: seq<T>)
    requires Numbers(table, met)
    ensures |table| == |met| && forall i :: 0 <= i < |met| ==> met[i] in table && table[met[i]] == i
  {
    forall i | 0 <= i < |met|
      ensures met[i] in table && table[met[i]] == i
    {
      assert met[i] in table;
      IndexOfAt(met, i);
    }
  }

  predicate NameIs(g: Registry, t: Ty, name: Bytes) {
    t in g.names && name == g.names[t]
  }

  lemma NamesStep(g: Registry, types: seq<Ty>, k: nat, name: Bytes)
    requires Named(g, types) && k < |types| && NameIs(g, types[k], name)
    ensures |name| < TWO_63
    ensures Named(g, types[k..]) && Named(g, types[k + 1..])
    ensures EncodeNames(g, types[k..]) == EncodeString(name) + EncodeNames(g, types[k + 1..])
  {
    hide EncodeString;
    assert types[k..][0] == types[k] && types[k..][1..] == types[k + 1..];
  }

  lemma StreamIs(c: Schema, g: Registry, heap: Heap, roots: seq<Value>, e: Encoded)
    requires WellTyped(c, heap) && AllHaveType(c, heap, TAny, roots) && ValidRegistry(c, g)
    requires e == EncodeRoots(c, heap, roots)
    ensures Named(g, e.memo.types) && |e.memo.types| < TWO_63
    ensures EncodeStream(c, g, heap, roots) == ListHeader(|e.memo.types|) + EncodeNames(g, e.memo.types) + e.bytes
  {
    hide WellTyped, AllHaveType, ValidMemo, EncodeRoots, EncodeNames, ListHeader, Named;
    SeenIsSmall(c, heap, e.memo);
    MetRegistered(c, heap, e.memo);
    NamesRoundTrip(c, g, e.memo.types, [], []);
  }

  /** `Encode` once for each root, then `Bytes`: the whole stream. */
  method EncodeToBytes(c: Schema, g: Registry, heap: Heap, roots: seq<Value>) returns (r: Bytes)
    requires WellTyped(c, heap) && AllHaveType(c, heap, TAny, roots) && ValidRegistry(c, g)
    ensures r == EncodeStream(c, g, heap, roots)
  {
    hide *;
    var e := new Encoder();
    NothingMet(c, heap);
    e.EncodeSlice(c, heap, TAny, roots);
    WroteIs(EncodeList(c, heap, TAny, roots, 0, Memo([], [])), e.buf, e.memo);
    RootsAre(c, heap, roots);
    StreamIs(c, g, heap, roots, EncodeRoots(c, heap, roots));
    r := e.Bytes(g);
  }

  lemma WroteIs(e: Encoded, buf: Bytes, memo: Memo)
    requires Wrote([], e, buf, memo)
    ensures buf == e.bytes && memo == e.memo
  {
  }

  lemma RootsAre(c: Schema, heap: Heap, roots: seq<Value>)
    requires WellTyped(c, heap) && AllHaveType(c, heap, TAny, roots) && ValidMemo(c, heap, Memo([], []))
    ensures EncodeRoots(c, heap, roots) == EncodeList(c, heap, TAny, roots, 0, Memo([], []))
  {
    hide WellTyped, AllHaveType, EncodeList;
  }

  lemma NoNames(g: Registry, types: seq<Ty>)
    ensures Named(g, types[|types|..]) && EncodeNames(g, types[|types|..]) == []
  {
  }

  lemma NothingMet(c: Schema, heap: Heap)
    ensures ValidMemo(c, heap, Memo([], []))
  {
  }

  lemma ListStep(c: Schema, heap: Heap, ty: Ty, es: seq<Value>, k: nat, m: Memo)
    requires WellTyped(c, heap) && ValidMemo(c, heap, m) && AllHaveType(c, heap, ty, es) && k < |es|
    ensures HasType(c, heap, ty, es[k])
    ensures var a, r := Encode(c, heap, ty, es[k], m), EncodeList(c, heap, ty, es, k, m);
      && ValidMemo(c, heap, a.memo) && Unseen(heap, a.memo.seen) <= Unseen(heap, m.seen)
      && r.bytes == a.bytes + EncodeList(c, heap, ty, es, k + 1, a.memo).bytes
           && r.memo == EncodeList(c, heap, ty, es, k + 1, a.memo).memo
  {
    hide WellTyped, ValidMemo, Unseen, Encode, HasType;
    UnseenShrinks(heap, m.seen, Encode(c, heap, ty, es[k], m).memo.seen);
  }

  lemma ListEnd(c: Schema, heap: Heap, ty: Ty, es: seq<Value>, m: Memo)
    requires WellTyped(c, heap) && ValidMemo(c, heap, m) && AllHaveType(c, heap, ty, es)
    ensures EncodeList(c, heap, ty, es, |es|, m) == Encoded([], m)
  {
    hide WellTyped, ValidMemo, AllHaveType;
  }

  lemma EntriesStep(c: Schema, heap: Heap, ty: Ty, ks: seq<Bytes>, vs: seq<Value>, k: nat, m: Memo)
    requires WellTyped(c, heap) && ValidMemo(c, heap, m) && AllHaveType(c, heap, ty, vs) && |ks| == |vs|
    requires ShortKeys(ks) && k < |ks|
    ensures HasType(c, heap, ty, vs[k])
    ensures var a, r := Encode(c, heap, ty, vs[k], m), EncodeEntries(c, heap, ty, ks, vs, k, m);
      && ValidMemo(c, heap, a.memo) && Unseen(heap, a.memo.seen) <= Unseen(heap, m.seen)
      && r.bytes == EncodeString(ks[k]) + a.bytes + EncodeEntries(c, heap, ty, ks, vs, k + 1, a.memo).bytes
      && r.memo == EncodeEntries(c, heap, ty, ks, vs, k + 1, a.memo).memo
  {
    hide WellTyped, ValidMemo, Unseen, Encode, HasType, EncodeString;
    UnseenShrinks(heap, m.seen, Encode(c, heap, ty, vs[k], m).memo.seen);
  }

  lemma EntriesEnd(c: Schema, heap: Heap, ty: Ty, ks: seq<Bytes>, vs: seq<Value>, m: Memo)
    requires WellTyped(c, heap) && ValidMemo(c, heap, m) && AllHaveType(c, heap, ty, vs) && |ks| == |vs|
    requires ShortKeys(ks)
    ensures EncodeEntries(c, heap, ty, ks, vs, |ks|, m) == Encoded([], m)
  {
    hide WellTyped, ValidMemo, AllHaveType, ShortKeys;
  }

  lemma FieldsStep(c: Schema, heap: Heap, fts: seq<FieldTy>, fs: seq<Value>, k: nat, m: Memo)
    requires WellTyped(c, heap) && ValidMemo(c, heap, m) && FieldsHaveType(c, heap, fts, fs) && k < |fs| < TWO_63
    ensures IsZero(fs[k]) ==> EncodeFields(c, heap, fts, fs, k, m) == EncodeFields(c, heap, fts, fs, k + 1, m)
    ensures !IsZero(fs[k]) ==> fts[k].Field? && HasType(c, heap, fts[k].ty, fs[k])
    ensures !IsZero(fs[k]) ==>
      var a, r := Encode(c, heap, fts[k].ty, fs[k], m), EncodeFields(c, heap, fts, fs, k, m);
      && ValidMemo(c, heap, a.memo) && Unseen(heap, a.memo.seen) <= Unseen(heap, m.seen)
      && r.bytes == EncodeUint(k) + a.bytes + EncodeFields(c, heap, fts, fs, k + 1, a.memo).bytes
      && r.memo == EncodeFields(c, heap, fts, fs, k + 1, a.memo).memo
  {
    hide WellTyped, ValidMemo, Unseen, Encode, HasType, EncodeUint;
    assert FieldHasType(c, heap, fts[k], fs[k]);
    if !IsZero(fs[k]) {
      UnseenShrinks(heap, m.seen, Encode(c, heap, fts[k].ty, fs[k], m).memo.seen);
    }
  }

  lemma FieldsEnd(c: Schema, heap: Heap, fts: seq<FieldTy>, fs: seq<Value>, m: Memo)
    requires WellTyped(c, heap) && ValidMemo(c, heap, m) && FieldsHaveType(c, heap, fts, fs) && |fs| < TWO_63
    ensures EncodeFields(c, heap, fts, fs, |fs|, m) == Encoded([], m)
  {
    hide WellTyped, ValidMemo, HasType;
  }

  /** The step has appended exactly the bytes of the encoding. */
  predicate Wrote(before: Bytes, e: Encoded, buf: Bytes, memo: Memo) {
    buf == before + e.bytes && memo == e.memo
  }

  lemma NumberOf<T(!new)>(table: map<T, nat>, met: seq<T>, x: T)
    requires Numbers(table, met)
    ensures (x in table <==> x in met) && (x in table ==> table[x] == IndexOf(met, x) < |met|)
  {
  }
}
