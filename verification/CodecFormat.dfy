/** The bytes of encoded values, as internal/godoc/codec/doc.go describes them. */
module CodecFormat {
  import opened CodecBytes
  import opened CodecGraph

  /** Four bytes, the least significant first. */
  function Word(a: int, b: int, c: int, d: int): int {
    a + 0x100 * b + 0x1_0000 * c + 0x100_0000 * d
  }

  lemma FourBytes(b: Bytes)
    requires |b| == 4
    ensures FromLittleEndian(b) == Word(b[0], b[1], b[2], b[3])
  {
    var c := b[1..];
    var d := c[1..];
    var e := d[1..];
    assert c[0] == b[1] && d[0] == b[2] && e[0] == b[3] && e[1..] == [];
    assert FromLittleEndian(e) == e[0];
    assert FromLittleEndian(d) == d[0] + 256 * FromLittleEndian(e);
    assert FromLittleEndian(c) == c[0] + 256 * FromLittleEndian(d);
  }

  lemma EightBytes(b: Bytes)
    requires |b| == 8
    ensures FromLittleEndian(b) == FromLittleEndian(b[..4]) + TWO_32 * FromLittleEndian(b[4..])
  {
    hide FromLittleEndian;
    var c := b[1..];
    var d := c[1..];
    var e := d[1..];
    FromFirst(b);
    FromFirst(c);
    FromFirst(d);
    FromFirst(e);
    assert e[1..] == b[4..] && c[0] == b[1] && d[0] == b[2] && e[0] == b[3];
    FourBytes(b[..4]);
  }

  lemma FromFirst(b: Bytes)
    requires b != []
    ensures FromLittleEndian(b) == b[0] + 256 * FromLittleEndian(b[1..])
  {
  }

  /** An unsigned integer that fits stands for itself in one byte; others are four or eight bytes
      after their number, least significant byte first. */
  lemma UintFormat(u: Uint64)
    ensures u < 243 ==> EncodeUint(u) == [u]
    ensures 243 <= u < 0x1_0000_0000 ==>
      var b := EncodeUint(u);
      |b| == 6 && b[0] == 247 && b[1] == 4 && u == Word(b[2], b[3], b[4], b[5])
    ensures u >= 0x1_0000_0000 ==>
      var b := EncodeUint(u);
      && |b| == 10 && b[0] == 247 && b[1] == 8
      && u == Word(b[2], b[3], b[4], b[5]) + 0x1_0000_0000 * Word(b[6], b[7], b[8], b[9])
  {
    hide LittleEndian, FromLittleEndian, Pow256;
    Pow256Values();
    if u >= 243 {
      if u < TWO_32 {
        LittleEndianRoundTrip(u, 4);
        FourBytes(LittleEndian(u, 4));
      } else {
        LittleEndianRoundTrip(u, 8);
        var b := LittleEndian(u, 8);
        EightBytes(b);
        FourBytes(b[..4]);
        FourBytes(b[4..]);
      }
    }
  }

  /** Small numbers of either sign are short: 0, -1, 1, -2 and so on are 0, 1, 2, 3. */
  lemma IntFormat(i: Int64)
    ensures i >= 0 ==> EncodeInt(i) == EncodeUint(2 * i)
    ensures i < 0 ==> EncodeInt(i) == EncodeUint(-2 * i - 1)
  {
  }

  /** Strings: the code for bytes, how many, and the bytes. Lists: the code for values, how many,
      and the values. */
  lemma StringAndListFormat(s: Bytes, n: nat)
    requires |s| < 243 && n < 243
    ensures EncodeString(s) == [247, |s|] + s && ListHeader(n) == [246, n]
  {
    hide EncodeUint;
    UintFormat(|s|);
    UintFormat(n);
  }

  /** The examples of the documentation: "hi", and a list of "hi" and "bye". */
  lemma DocumentedExamples(c: Schema, heap: Heap, m: Memo)
    requires WellTyped(c, heap) && ValidMemo(c, heap, m)
    ensures HasType(c, heap, TSlice(TStr), HiBye())
    ensures EncodeString([104, 105]) == [247, 2, 104, 105]
    ensures Encode(c, heap, TSlice(TStr), HiBye(), m).bytes
      == [246, 2, 247, 2, 104, 105, 247, 3, 98, 121, 101]
  {
    hide WellTyped, ValidMemo, Unseen;
    var hi, bye := Str([104, 105]), Str([98, 121, 101]);
    assert HasType(c, heap, TStr, hi) && HasType(c, heap, TStr, bye);
    StringAndListFormat([104, 105], 2);
    StringAndListFormat([98, 121, 101], 2);
    var es := [hi, bye];
    assert EncodeList(c, heap, TStr, es, 2, m).bytes == [];
    assert EncodeList(c, heap, TStr, es, 1, m).bytes == EncodeString([98, 121, 101]) + [];
    assert EncodeList(c, heap, TStr, es, 0, m).bytes
        == EncodeString([104, 105]) + EncodeList(c, heap, TStr, es, 1, m).bytes;
  }

  function HiBye(): Value {
    List([Str([104, 105]), Str([98, 121, 101])])
  }

  /** Nil is one byte; a struct met before is a reference to its number; a new one is its fields
      between start and end. */
  lemma PointerFormat(c: Schema, heap: Heap, n: nat, v: Value, m: Memo)
    requires WellTyped(c, heap) && ValidMemo(c, heap, m) && HasType(c, heap, TPtr(n), v)
    ensures var b := Encode(c, heap, TPtr(n), v, m).bytes;
      if v.Nil? then b == [255]
      else if v.id in m.seen then
        exists k: nat :: k < |m.seen| && m.seen[k] == v.id && k < TWO_63 && b == [245] + EncodeUint(k)
      else |b| >= 2 && b[0] == 244 && b[|b| - 1] == 243
  {
    hide WellTyped, ValidMemo, Unseen, EncodeFields, EncodeUint;
    if v.Ptr? && v.id in m.seen {
      SeenIsSmall(c, heap, m);
      var k := IndexOf(m.seen, v.id);
      assert Encode(c, heap, TPtr(n), v, m).bytes == [245] + EncodeUint(k);
    }
  }

  /** Of a struct's fields only those that are not zero are written, each after its number. */
  lemma FieldFormat(c: Schema, heap: Heap, fts: seq<FieldTy>, fs: seq<Value>, k: nat, m: Memo)
    requires WellTyped(c, heap) && ValidMemo(c, heap, m) && FieldsHaveType(c, heap, fts, fs) && k < |fs| < TWO_63
    ensures IsZero(fs[k]) ==> EncodeFields(c, heap, fts, fs, k, m) == EncodeFields(c, heap, fts, fs, k + 1, m)
    ensures !IsZero(fs[k]) ==>
      && fts[k].Field? && HasType(c, heap, fts[k].ty, fs[k])
      && var a := Encode(c, heap, fts[k].ty, fs[k], m);
         EncodeFields(c, heap, fts, fs, k, m).bytes
         == EncodeUint(k) + a.bytes + EncodeFields(c, heap, fts, fs, k + 1, a.memo).bytes
  {
    hide WellTyped, ValidMemo, Unseen, Encode, HasType, EncodeUint;
    assert FieldHasType(c, heap, fts[k], fs[k]);
  }

  lemma {:induction false} BytesOfValue(b: Bytes)
    ensures LittleEndian(FromLittleEndian(b), |b|) == b
  {
    if b != [] {
      BytesOfValue(b[1..]);
      var v := FromLittleEndian(b[1..]);
      assert (b[0] + 256 * v) % 256 == b[0] && (b[0] + 256 * v) / 256 == v;
    }
  }

  /** What is read as an unsigned integer, and nothing else is: one byte below 243, or 247 and four
      or eight bytes, even where fewer would do. */
  lemma UintForms(s: Bytes, u: Uint64, rest: Bytes)
    ensures DecodeUint(s) == Ok(u, rest) <==>
      || (u < 243 && s == [u] + rest)
      || (u < TWO_32 && s == [247, 4] + LittleEndian(u, 4) + rest)
      || s == [247, 8] + LittleEndian(u, 8) + rest
  {
    hide LittleEndian, FromLittleEndian, Pow256;
    Pow256Values();
    if DecodeUint(s) == Ok(u, rest) && s[0] >= 243 {
      var n := s[1];
      var b := s[2..][..n];
      BytesOfValue(b);
      FromLittleEndianBound(b);
      assert s == [247, n] + b + rest;
    }
    if u < 243 && s == [u] + rest {
      assert s[1..] == rest;
    }
    if u < TWO_32 && s == [247, 4] + LittleEndian(u, 4) + rest {
      WideUintRoundTrip(u, 4, rest);
    }
    if s == [247, 8] + LittleEndian(u, 8) + rest {
      WideUintRoundTrip(u, 8, rest);
    }
  }
}
