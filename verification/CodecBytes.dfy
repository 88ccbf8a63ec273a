/** The byte layer of the AST codec (internal/godoc/codec/codec.go): the codes that begin
    each encoded value, and the encodings of integers, booleans and byte strings.

    Decoding functions work on the bytes that are still unread and give back the rest.
    Go reports a malformed input in two ways: `failf` raises an error that `Decode`
    returns (`Fail`), and reading past the end of the buffer is a run-time panic that
    `handlePanic` passes on (`Panic`). */
module CodecBytes {

  type Byte = x: int | 0 <= x < 256
  type Bytes = seq<Byte>

  const NIL_CODE: Byte := 255
  const N_BYTES_CODE: Byte := 247
  const N_VALUES_CODE: Byte := 246
  const REF_CODE: Byte := 245
  const START_CODE: Byte := 244
  const END_CODE: Byte := 243

  const TWO_32: int := 0x1_0000_0000
  const TWO_63: int := 0x8000_0000_0000_0000
  const TWO_64: int := 0x1_0000_0000_0000_0000

  type Uint64 = x: int | 0 <= x < TWO_64
  type Int64 = x: int | -TWO_63 <= x < TWO_63

  datatype Read<+T> = Ok(value: T, rest: Bytes) | Fail | Panic {
    predicate IsFailure() { !Ok? }
    function PropagateFailure<U>(): Read<U>
      requires IsFailure()
    {
      if Fail? then Fail else Panic
    }
    function Extract(): (T, Bytes)
      requires Ok?
    {
      (value, rest)
    }
  }

  function Pow256(n: nat): (r: nat)
    ensures r > 0
  {
    if n == 0 then 1 else 256 * Pow256(n - 1)
  }

  /** The `n` low-order bytes of `u`, least significant first. */
  function LittleEndian(u: nat, n: nat): (r: Bytes)
    ensures |r| == n
  {
    if n == 0 then [] else [u % 256] + LittleEndian(u / 256, n - 1)
  }

  function FromLittleEndian(s: Bytes): nat {
    if s == [] then 0 else s[0] + 256 * FromLittleEndian(s[1..])
  }

  lemma {:induction false} LittleEndianRoundTrip(u: nat, n: nat)
    requires u < Pow256(n)
    ensures FromLittleEndian(LittleEndian(u, n)) == u
  {
    if n > 0 {
      LittleEndianRoundTrip(u / 256, n - 1);
      assert LittleEndian(u, n)[1..] == LittleEndian(u / 256, n - 1);
    }
  }

  lemma {:induction false} FromLittleEndianBound(s: Bytes)
    ensures FromLittleEndian(s) < Pow256(|s|)
  {
    if s != [] {
      FromLittleEndianBound(s[1..]);
    }
  }

  lemma Pow256Values()
    ensures Pow256(4) == TWO_32 && Pow256(8) == TWO_64
  {
    assert Pow256(4) == 256 * Pow256(3);
    assert Pow256(8) == 256 * (256 * (256 * (256 * Pow256(4))));
  }

  function EncodeUint(u: Uint64): (r: Bytes)
    ensures |r| > 0
  {
    if u < END_CODE then [u]
    else if u < TWO_32 then [N_BYTES_CODE, 4] + LittleEndian(u, 4)
    else [N_BYTES_CODE, 8] + LittleEndian(u, 8)
  }

  function ReadBytes(n: int, s: Bytes): (r: Read<Bytes>)
    ensures r.Ok? ==> s == r.value + r.rest && |r.value| == n
  {
    if 0 <= n <= |s| then Ok(s[..n], s[n..]) else Panic
  }

  function DecodeUint(s: Bytes): (r: Read<Uint64>)
    ensures r.Ok? ==> |r.rest| < |s|
  {
    if s == [] then Panic
    else if s[0] < END_CODE then Ok(s[0], s[1..])
    else if s[0] != N_BYTES_CODE then Fail
    else if |s| < 2 then Panic
    else if s[1] != 4 && s[1] != 8 then Fail
    else
      var (b, rest) :- ReadBytes(s[1], s[2..]);
      Pow256Values();
      FromLittleEndianBound(b);
      Ok(FromLittleEndian(b), rest)
  }

  lemma WideUintRoundTrip(u: Uint64, n: Byte, tail: Bytes)
    requires n == 4 || n == 8
    requires u < Pow256(n)
    ensures DecodeUint([N_BYTES_CODE, n] + LittleEndian(u, n) + tail) == Ok(u, tail)
  {
    var b := LittleEndian(u, n);
    LittleEndianRoundTrip(u, n);
    hide LittleEndian;
    hide FromLittleEndian;
    hide Pow256;
    var s := [N_BYTES_CODE, n] + b + tail;
    assert s[2..] == b + tail;
    assert (b + tail)[..n] == b && (b + tail)[n..] == tail;
  }

  lemma UintRoundTrip(u: Uint64, tail: Bytes)
    ensures DecodeUint(EncodeUint(u) + tail) == Ok(u, tail)
  {
    Pow256Values();
    if u < END_CODE {
      assert (EncodeUint(u) + tail)[1..] == tail;
    } else {
      WideUintRoundTrip(u, if u < TWO_32 then 4 else 8, tail);
    }
  }

  /** The encoding of a uint never begins with the byte that closes a struct. */
  lemma UintNotEnd(u: Uint64)
    ensures EncodeUint(u)[0] != END_CODE
  {
  }

  /** Bit 0 holds the sign: a negative `i` is complemented and shifted, as in gob. */
  function ZigZag(i: Int64): Uint64 {
    if i < 0 then 2 * (-1 - i) + 1 else 2 * i
  }

  function UnZigZag(u: Uint64): Int64 {
    if u % 2 == 1 then -(u / 2) - 1 else u / 2
  }

  function EncodeInt(i: Int64): (r: Bytes)
    ensures |r| > 0
  {
    EncodeUint(ZigZag(i))
  }

  function DecodeInt(s: Bytes): (r: Read<Int64>)
    ensures r.Ok? ==> |r.rest| < |s|
  {
    var (u, rest) :- DecodeUint(s);
    Ok(UnZigZag(u), rest)
  }

  lemma IntRoundTrip(i: Int64, tail: Bytes)
    ensures DecodeInt(EncodeInt(i) + tail) == Ok(i, tail)
  {
    UintRoundTrip(ZigZag(i), tail);
  }

  /** Go's conversion of a uint64 to int. */
  function ToInt(u: Uint64): Int64 {
    if u < TWO_63 then u else u - TWO_64
  }

  function EncodeString(b: Bytes): (r: Bytes)
    requires |b| < TWO_63
    ensures |r| > 0
  {
    [N_BYTES_CODE] + EncodeUint(|b|) + b
  }

  function DecodeString(s: Bytes): (r: Read<Bytes>)
    ensures r.Ok? ==> |r.rest| < |s| && |r.value| < TWO_63
  {
    if s == [] then Panic
    else if s[0] != N_BYTES_CODE then Fail
    else
      var (u, rest) :- DecodeUint(s[1..]);
      ReadBytes(ToInt(u), rest)
  }

  lemma StringRoundTrip(b: Bytes, tail: Bytes)
    requires |b| < TWO_63
    ensures DecodeString(EncodeString(b) + tail) == Ok(b, tail)
  {
    var s := EncodeString(b) + tail;
    assert s[1..] == EncodeUint(|b|) + (b + tail);
    UintRoundTrip(|b|, b + tail);
    assert (b + tail)[..|b|] == b && (b + tail)[|b|..] == tail;
  }

  function EncodeBool(b: bool): Bytes {
    if b then [1] else [0]
  }

  function DecodeBool(s: Bytes): (r: Read<bool>)
    ensures r.Ok? ==> |r.rest| < |s|
  {
    if s == [] then Panic
    else if s[0] == 0 then Ok(false, s[1..])
    else if s[0] == 1 then Ok(true, s[1..])
    else Fail
  }

  /** The header of a list: the code for a sequence of values, then how many. */
  function ListHeader(n: nat): (r: Bytes)
    requires n < TWO_63
    ensures |r| > 0
  {
    [N_VALUES_CODE] + EncodeUint(n)
  }

  /** `StartList`: the length of the list that follows, or -1 for nil. */
  function DecodeListHeader(s: Bytes): (r: Read<Int64>)
    ensures r.Ok? ==> |r.rest| < |s|
  {
    if s == [] then Panic
    else if s[0] == NIL_CODE then Ok(-1, s[1..])
    else if s[0] != N_VALUES_CODE then Fail
    else
      var (u, rest) :- DecodeUint(s[1..]);
      Ok(ToInt(u), rest)
  }

  lemma ListHeaderRoundTrip(n: nat, tail: Bytes)
    requires n < TWO_63
    ensures DecodeListHeader(ListHeader(n) + tail) == Ok(n, tail)
  {
    assert (ListHeader(n) + tail)[1..] == EncodeUint(n) + tail;
    UintRoundTrip(n, tail);
  }
}
