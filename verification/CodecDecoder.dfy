/** The decoder as it runs: a position in a buffer, the structs allocated so far, and loops over
    elements, entries and fields. It is proved to do what the functions on byte sequences say. */
module CodecDecoder {
  import opened CodecBytes
  import opened CodecGraph
  import opened CodecDecode
  import opened CodecRoundTrip
  import opened CodecClosed
  import opened CodecFaithful
  import opened CodecPlain
  import opened CodecStream
  import opened CodecEncoder

  /** The result of a call: a value, an error of the codec, or a run-time panic. */
  datatype Got<+T> = Got(value: T) | Failed | Panicked

  /** The call does what the function on the unread bytes says. */
  predicate Matches<T(==)>(r: Got<T>, spec: Read<T>, rest: Bytes) {
    match spec
    case Ok(v, rest') => r == Got(v) && rest == rest'
    case Fail => r.Failed?
    case Panic => r.Panicked?
  }

  predicate MatchesDec(r: Got<Value>, spec: Read<Dec>, rest: Bytes, refs: seq<Struct>) {
    match spec
    case Ok(d, rest') => r == Got(d.v) && rest == rest' && refs == d.refs
    case Fail => r.Failed?
    case Panic => r.Panicked?
  }

  class Decoder {
    const buf: Bytes
    var i: nat
    var typeInfos: seq<Ty>
    var refs: seq<Struct>

    predicate Valid()
      reads this
    {
      i <= |buf|
    }

    function Rest(): (r: Bytes)
      reads this
      requires Valid()
      ensures |r| == |buf| - i
    {
      buf[i..]
    }

    constructor (data: Bytes)
      ensures Valid() && Rest() == data && refs == []
    {
      buf, i, typeInfos, refs := data, 0, [], [];
    }

    method ReadMany(n: int) returns (r: Got<Bytes>)
      requires Valid()
      modifies this`i
      ensures Valid() && Matches(r, ReadBytes(n, old(Rest())), Rest())
    {
      if n < 0 || i + n > |buf| {
        return Panicked;
      }
      assert buf[i..][..n] == buf[i..i + n] && buf[i..][n..] == buf[i + n..];
      i := i + n;
      r := Got(buf[i - n..i]);
    }

    method ReadUint() returns (r: Got<Uint64>)
      requires Valid()
      modifies this`i
      ensures Valid() && Matches(r, DecodeUint(old(Rest())), Rest())
    {
      hide FromLittleEndian, Pow256;
      if i == |buf| {
        return Panicked;
      }
      var b := buf[i];
      i := i + 1;
      if b < END_CODE {
        return Got(b);
      }
      if b != N_BYTES_CODE {
        return Failed;
      }
      if i == |buf| {
        return Panicked;
      }
      var n := buf[i];
      i := i + 1;
      if n != 4 && n != 8 {
        return Failed;
      }
      var bytes := ReadMany(n);
      if !bytes.Got? {
        return Panicked;
      }
      Pow256Values();
      FromLittleEndianBound(bytes.value);
      r := Got(FromLittleEndian(bytes.value));
    }

    method ReadString() returns (r: Got<Bytes>)
      requires Valid()
      modifies this`i
      ensures Valid() && Matches(r, DecodeString(old(Rest())), Rest())
    {
      hide DecodeUint;
      if i == |buf| {
        return Panicked;
      }
      var b := buf[i];
      i := i + 1;
      if b != N_BYTES_CODE {
        return Failed;
      }
      var u := ReadUint();
      if u.Got? {
        r := ReadMany(ToInt(u.value));
      } else {
        r := if u.Failed? then Failed else Panicked;
      }
    }

    method StartList() returns (r: Got<Int64>)
      requires Valid()
      modifies this`i
      ensures Valid() && Matches(r, DecodeListHeader(old(Rest())), Rest())
    {
      hide DecodeUint;
      if i == |buf| {
        return Panicked;
      }
      var b := buf[i];
      i := i + 1;
      if b == NIL_CODE {
        return Got(-1);
      }
      if b != N_VALUES_CODE {
        return Failed;
      }
      var u := ReadUint();
      r := if u.Got? then Got(ToInt(u.value)) else if u.Failed? then Failed else Panicked;
    }

    method ReadBool() returns (r: Got<bool>)
      requires Valid()
      modifies this`i
      ensures Valid() && Matches(r, DecodeBool(old(Rest())), Rest())
    {
      if i == |buf| {
        return Panicked;
      }
      var b := buf[i];
      i := i + 1;
      r := if b == 0 then Got(false) else if b == 1 then Got(true) else Failed;
    }

    /** Passes over a value. */
    method SkipValue() returns (r: Got<()>)
      requires Valid()
      modifies this`i
      ensures Valid() && Matches(r, Skip(old(Rest())), Rest())
      decreases |buf| - i, 0
    {
      hide DecodeUint;
      if i == |buf| {
        return Panicked;
      }
      var b := buf[i];
      i := i + 1;
      if b < END_CODE || b == NIL_CODE {
        return Got(());
      }
      if b == START_CODE {
        r := SkipFields();
        return;
      }
      if b != N_BYTES_CODE && b != N_VALUES_CODE && b != REF_CODE {
        return Failed;
      }
      var u := ReadUint();
      if !u.Got? {
        return if u.Failed? then Failed else Panicked;
      }
      if b == N_BYTES_CODE {
        var bytes := ReadMany(ToInt(u.value));
        return if bytes.Got? then Got(()) else if bytes.Failed? then Failed else Panicked;
      }
      if b == N_VALUES_CODE {
        r := SkipValues(ToInt(u.value));
        return;
      }
      r := Got(());
    }

    method SkipValues(n: int) returns (r: Got<()>)
      requires Valid()
      modifies this`i
      ensures Valid() && Matches(r, SkipMany(n, old(Rest())), Rest())
      decreases |buf| - i, 1
    {
      hide Skip;
      ghost var s := Rest();
      var k := 0;
      while k < n
        invariant Valid() && i >= old(i) && (0 < n ==> k <= n) && (n <= 0 ==> k == 0)
        invariant SkipMany(n - k, Rest()) == SkipMany(n, s)
      {
        r := SkipValue();
        if !r.Got? {
          return;
        }
        k := k + 1;
      }
      r := Got(());
    }

    method SkipFields() returns (r: Got<()>)
      requires Valid()
      modifies this`i
      ensures Valid() && Matches(r, SkipToEnd(old(Rest())), Rest())
      decreases |buf| - i, 1
    {
      hide Skip;
      ghost var s := Rest();
      while i < |buf| && buf[i] != END_CODE
        invariant Valid() && i >= old(i)
        invariant SkipToEnd(Rest()) == SkipToEnd(s)
        decreases |buf| - i
      {
        r := SkipValue();
        if !r.Got? {
          return;
        }
      }
      if i == |buf| {
        return Panicked;
      }
      i := i + 1;
      r := Got(());
    }

    /** Decodes a value of a static type into a variable that holds `prev`. */
    method DecodeValue(c: Schema, ty: Ty, prev: Value) returns (r: Got<Value>)
      requires Valid() && ValidRefs(c, refs)
      modifies this`i, this`refs
      ensures Valid() && MatchesDec(r, Decode(c, typeInfos, ty, old(Rest()), old(refs), prev), Rest(), refs)
      decreases |buf| - i, 2
    {
      hide DecodeUint, DecodeString, DecodeBool, DecodeListHeader, DecodePtr, CodecDecode.DecodeAny, DecodeList,
           DecodeEntries, ValidRefs;
      match ty {
        case TInt =>
          var u := ReadUint();
          r := if u.Got? then Got(Int(UnZigZag(u.value))) else if u.Failed? then Failed else Panicked;
        case TBool =>
          var b := ReadBool();
          r := if b.Got? then Got(Bool(b.value)) else if b.Failed? then Failed else Panicked;
        case TStr =>
          var s := ReadString();
          r := if s.Got? then Got(Str(s.value)) else if s.Failed? then Failed else Panicked;
        case TPtr(n) => r := DecodeStruct(c, n, prev);
        case TAny => r := DecodeDynamic(c);
        case TIface =>
          r := DecodeDynamic(c);
          if r == Got(Nil) {
            r := Panicked;
          }
        case TSlice(e) =>
          var n := StartList();
          if n.Got? {
            if n.value < 0 {
              r := Got(prev);
            } else {
              r := DecodeSlice(c, e, n.value);
            }
          } else {
            r := if n.Failed? then Failed else Panicked;
          }
        case TMap(e) =>
          var n := StartList();
          if n.Got? {
            if n.value < 0 {
              r := Got(prev);
            } else {
              r := DecodeMap(c, e, n.value / 2);
            }
          } else {
            r := if n.Failed? then Failed else Panicked;
          }
      }
    }

    method DecodeDynamic(c: Schema) returns (r: Got<Value>)
      requires Valid() && ValidRefs(c, refs)
      modifies this`i, this`refs
      ensures Valid() && MatchesDec(r, DecodeAny(c, typeInfos, old(Rest()), old(refs)), Rest(), refs)
      decreases |buf| - i, 1
    {
      hide DecodeUint, DecodeListHeader, Decode, ValidRefs;
      if i == |buf| {
        return Panicked;
      }
      if buf[i] == 0 {
        i := i + 1;
        return Got(Nil);
      }
      var n := StartList();
      if !n.Got? {
        return if n.Failed? then Failed else Panicked;
      }
      if n.value != 2 {
        return Failed;
      }
      var num := ReadUint();
      if !num.Got? {
        return if num.Failed? then Failed else Panicked;
      }
      if num.value >= |typeInfos| {
        return Failed;
      }
      var t := typeInfos[num.value];
      r := DecodeValue(c, t, ZeroOf(Field(t)));
      if r.Got? {
        r := Got(Any(t, r.value));
      }
    }

    method DecodeSlice(c: Schema, ty: Ty, n: nat) returns (r: Got<Value>)
      requires Valid() && ValidRefs(c, refs)
      modifies this`i, this`refs
      ensures Valid() && MatchesDec(r, DecodeList(c, typeInfos, ty, n, [], old(Rest()), old(refs)), Rest(), refs)
      decreases |buf| - i, 3
    {
      hide Decode, ValidRefs;
      ghost var spec := DecodeList(c, typeInfos, ty, n, [], Rest(), refs);
      var elems: seq<Value> := [];
      for k := 0 to n
        invariant Valid() && i >= old(i) && ValidRefs(c, refs)
        invariant DecodeList(c, typeInfos, ty, n - k, elems, Rest(), refs) == spec
      {
        var v := DecodeValue(c, ty, ZeroOf(Field(ty)));
        if !v.Got? {
          return v;
        }
        elems := elems + [v.value];
      }
      r := Got(List(elems));
    }

    /** The variable `v` lives outside the loop. */
    method DecodeMap(c: Schema, ty: Ty, n: nat) returns (r: Got<Value>)
      requires Valid() && ValidRefs(c, refs)
      modifies this`i, this`refs
      ensures Valid()
      ensures MatchesDec(r, DecodeEntries(c, typeInfos, ty, n, [], [], ZeroOf(Field(ty)), old(Rest()), old(refs)),
        Rest(), refs)
      decreases |buf| - i, 3
    {
      hide Decode, ValidRefs, DecodeString;
      var v := ZeroOf(Field(ty));
      ghost var spec := DecodeEntries(c, typeInfos, ty, n, [], [], v, Rest(), refs);
      var ks: seq<Bytes>, vs: seq<Value> := [], [];
      for k := 0 to n
        invariant Valid() && i >= old(i) && ValidRefs(c, refs) && |ks| == |vs|
        invariant DecodeEntries(c, typeInfos, ty, n - k, ks, vs, v, Rest(), refs) == spec
      {
        var key := ReadString();
        if !key.Got? {
          return if key.Failed? then Failed else Panicked;
        }
        var d := DecodeValue(c, ty, v);
        if !d.Got? {
          return d;
        }
        v := d.value;
        var put := MapPut(ks, vs, key.value, v);
        ks, vs := put.0, put.1;
      }
      r := Got(Map(ks, vs));
    }

    method DecodeStruct(c: Schema, n: nat, prev: Value) returns (r: Got<Value>)
      requires Valid() && ValidRefs(c, refs)
      modifies this`i, this`refs
      ensures Valid() && MatchesDec(r, DecodePtr(c, typeInfos, n, old(Rest()), old(refs), prev), Rest(), refs)
      decreases |buf| - i, 1
    {
      hide DecodeUint, DecodeFields;
      if i == |buf| {
        return Panicked;
      }
      var b := buf[i];
      i := i + 1;
      if b == NIL_CODE {
        return Got(prev);
      }
      if b == REF_CODE {
        var u := ReadUint();
        if !u.Got? {
          return if u.Failed? then Failed else Panicked;
        }
        return if u.value < |refs| && refs[u.value].name == n then Got(Ptr(u.value)) else Panicked;
      }
      if b != START_CODE || n >= |c.structs| {
        return Failed;
      }
      var idx := |refs|;
      refs := refs + [ZeroStruct(c, n)];
      var any := DecodeStructFields(c, idx);
      r := if any.Got? then Got(if any.value then Ptr(idx) else prev) else if any.Failed? then Failed else Panicked;
    }

    /** The field loop; the flag says whether `*p` was set. */
    method DecodeStructFields(c: Schema, idx: nat) returns (r: Got<bool>)
      requires Valid() && ValidRefs(c, refs) && idx < |refs|
      modifies this`i, this`refs
      ensures Valid() && MatchesFields(r, DecodeFields(c, typeInfos, idx, old(Rest()), old(refs), false), Rest(), refs)
      decreases |buf| - i, 0
    {
      hide Decode, Skip, DecodeUint;
      ghost var spec := DecodeFields(c, typeInfos, idx, Rest(), refs, false);
      var any := false;
      while true
        invariant Valid() && i >= old(i) && ValidRefs(c, refs) && idx < |refs|
        invariant DecodeFields(c, typeInfos, idx, Rest(), refs, any) == spec
        decreases |buf| - i
      {
        if i == |buf| {
          return Panicked;
        }
        if buf[i] == END_CODE {
          i := i + 1;
          return Got(any);
        }
        var u := ReadUint();
        if !u.Got? {
          return if u.Failed? then Failed else Panicked;
        }
        var n := ToInt(u.value);
        var fts := c.structs[refs[idx].name];
        if n < 0 {
          return Got(any);
        }
        if n < |fts| && fts[n].Field? {
          var v := DecodeValue(c, fts[n].ty, refs[idx].fields[n]);
          if !v.Got? {
            return if v.Failed? then Failed else Panicked;
          }
          refs := SetField(refs, idx, n, v.value);
        } else {
          var skipped := SkipValue();
          if !skipped.Got? {
            return if skipped.Failed? then Failed else Panicked;
          }
        }
        any := true;
      }
    }

    /** `decodeInitial`: the types of the stream, by number. */
    method ReadTypes(g: Registry) returns (r: Got<()>)
      requires Valid()
      modifies this`i, this`typeInfos
      ensures Valid()
      ensures Matches(if r.Got? then Got(typeInfos) else if r.Failed? then Failed
        else Panicked, TypesOf(g, old(Rest())), Rest())
    {
      hide DecodeListHeader, DecodeString;
      var n := StartList();
      if !n.Got? {
        return if n.Failed? then Failed else Panicked;
      }
      if n.value < 0 {
        return Panicked;
      }
      ghost var s := Rest();
      typeInfos := [];
      for k := 0 to n.value
        invariant Valid() && DecodeNames(g, n.value - k, typeInfos, Rest()) == DecodeNames(g, n.value, [], s)
      {
        var name := ReadString();
        if !name.Got? {
          return if name.Failed? then Failed else Panicked;
        }
        if name.value !in g.byName {
          return Failed;
        }
        typeInfos := typeInfos + [g.byName[name.value]];
      }
      r := Got(());
    }
  }

  function TypesOf(g: Registry, s: Bytes): Read<seq<Ty>> {
    var (k, rest) :- DecodeListHeader(s);
    if k < 0 then Panic else DecodeNames(g, k, [], rest)
  }

  lemma StreamTypes(c: Schema, g: Registry, n: nat, s: Bytes)
    ensures var t := TypesOf(g, s);
      match t
      case Ok(types, rest) => DecodeStream(c, g, n, s) == DecodeList(c, types, TAny, n, [], rest, [])
      case Fail => DecodeStream(c, g, n, s) == Fail
      case Panic => DecodeStream(c, g, n, s) == Panic
  {
    hide DecodeListHeader, DecodeNames, DecodeList;
  }

  /** A decoder for the bytes, and `Decode` called `n` times. */
  method DecodeFromBytes(c: Schema, g: Registry, n: nat, data: Bytes)
    returns (r: Got<Value>, refs: seq<Struct>, rest: Bytes)
    ensures MatchesDec(r, DecodeStream(c, g, n, data), rest, refs)
  {
    hide TypesOf, DecodeStream, DecodeList;
    var d := new Decoder(data);
    StreamTypes(c, g, n, data);
    var types := d.ReadTypes(g);
    if !types.Got? {
      return if types.Failed? then Failed else Panicked, [], [];
    }
    r := d.DecodeSlice(c, TAny, n);
    refs, rest := d.refs, d.Rest();
  }

  /** Encoding and then decoding gives back the roots and a copy of all that is reachable from
      them, exactly for the graphs that `StreamRoundTrip` describes. */
  method EncodeThenDecode(c: Schema, g: Registry, heap: Heap, roots: seq<Value>)
    returns (r: Got<Value>, refs: seq<Struct>)
    requires WellTyped(c, heap) && AllHaveType(c, heap, TAny, roots) && ValidRegistry(c, g)
    ensures var seen := EncodeRoots(c, heap, roots).memo.seen;
      && InHeap(heap, seen)
      && ((r == Got(List(RenameFrom(roots, 0, seen))) && refs == Copies(c, heap, seen, 0, seen))
          <==> AllGood(TAny, roots, 0) && forall id :: Reachable(heap, roots, id) ==>
            id in heap && GoodStruct(c, heap[id]))
  {
    hide WellTyped, AllHaveType, ValidRegistry, EncodeRoots, EncodeStream, DecodeStream, RenameFrom, AllGood,
         GoodStruct, Reachable, Copies, InHeap;
    var data := EncodeToBytes(c, g, heap, roots);
    var rest;
    r, refs, rest := DecodeFromBytes(c, g, |roots|, data);
    StreamRoundTrip(c, g, heap, roots);
    NothingLeft(c, g, heap, roots);
  }

  lemma NothingLeft(c: Schema, g: Registry, heap: Heap, roots: seq<Value>)
    requires WellTyped(c, heap) && AllHaveType(c, heap, TAny, roots) && ValidRegistry(c, g)
    ensures var r := DecodeStream(c, g, |roots|, EncodeStream(c, g, heap, roots));
      !r.Fail? && (r.Ok? ==> r.rest == [])
  {
    hide WellTyped, AllHaveType, ValidRegistry, EncodeStream, DecodeStream, ExpectList, Compatible, ValidMemo,
         ValidRefs,
         GotFits, Ready;
    SameIsNewer(c);
    NothingYet(c, c, heap);
    StreamOutcome(c, c, g, heap, roots);
  }

  predicate MatchesFields(r: Got<bool>, spec: Read<(seq<Struct>, bool)>, rest: Bytes, refs: seq<Struct>) {
    match spec
    case Ok(d, rest') => r == Got(d.1) && rest == rest' && refs == d.0
    case Fail => r.Failed?
    case Panic => r.Panicked?
  }
}
