/** The decoder half of the schema-driven codec, including `skip`, which passes over the
    value of an unknown field. */
module CodecDecode {
  import opened CodecBytes
  import opened CodecGraph

  /** A decoded value and the structs allocated so far (`Decoder.refs`). */
  datatype Dec = Dec(v: Value, refs: seq<Struct>)

  predicate ValidRefs(c: Schema, refs: seq<Struct>) {
    forall j :: 0 <= j < |refs| ==> refs[j].name < |c.structs| && |refs[j].fields| == |c.structs[refs[j].name]|
  }

  /** The structs allocated before a step are still there, under the same type. */
  predicate Grows(refs: seq<Struct>, refs': seq<Struct>) {
    |refs| <= |refs'| && forall j :: 0 <= j < |refs| ==> refs'[j].name == refs[j].name
  }

  predicate Steps(c: Schema, s: Bytes, refs: seq<Struct>, rest: Bytes, refs': seq<Struct>) {
    |rest| <= |s| && Grows(refs, refs') && ValidRefs(c, refs')
  }

  function SetField(refs: seq<Struct>, idx: nat, k: nat, v: Value): (r: seq<Struct>)
    requires idx < |refs| && k < |refs[idx].fields|
    ensures |r| == |refs|
  {
    refs[idx := refs[idx].(fields := refs[idx].fields[k := v])]
  }

  /** Decodes into a variable that holds `prev`: a nil pointer, slice or map, and a struct
      without encoded fields, leave the variable as it is. */
  function Decode(c: Schema, types: seq<Ty>, ty: Ty, s: Bytes, refs: seq<Struct>, prev: Value): (r: Read<Dec>)
    requires ValidRefs(c, refs)
    ensures r.Ok? ==> |r.rest| < |s| && Steps(c, s, refs, r.rest, r.value.refs)
    decreases |s|, 2
  {
    match ty
    case TInt =>
      var (i, rest) :- DecodeInt(s);
      Ok(Dec(Int(i), refs), rest)
    case TBool =>
      var (b, rest) :- DecodeBool(s);
      Ok(Dec(Bool(b), refs), rest)
    case TStr =>
      var (b, rest) :- DecodeString(s);
      Ok(Dec(Str(b), refs), rest)
    case TPtr(n) => DecodePtr(c, types, n, s, refs, prev)
    case TAny => DecodeAny(c, types, s, refs)
    case TIface =>
      var (d, rest) :- DecodeAny(c, types, s, refs);
      if d.v.Nil? then Panic else Ok(d, rest)
    case TSlice(e) =>
      var (n, rest) :- DecodeListHeader(s);
      if n < 0 then Ok(Dec(prev, refs), rest) else DecodeList(c, types, e, n, [], rest, refs)
    case TMap(e) =>
      var (n, rest) :- DecodeListHeader(s);
      if n < 0 then Ok(Dec(prev, refs), rest)
      else DecodeEntries(c, types, e, n / 2, [], [], ZeroOf(Field(e)), rest, refs)
  }

  function DecodePtr(c: Schema, types: seq<Ty>, n: nat, s: Bytes, refs: seq<Struct>, prev: Value): (r: Read<Dec>)
    requires ValidRefs(c, refs)
    ensures r.Ok? ==> |r.rest| < |s| && Steps(c, s, refs, r.rest, r.value.refs)
    decreases |s|, 1
  {
    if s == [] then Panic
    else if s[0] == NIL_CODE then Ok(Dec(prev, refs), s[1..])
    else if s[0] == REF_CODE then
      var (u, rest) :- DecodeUint(s[1..]);
      if u < |refs| && refs[u].name == n then Ok(Dec(Ptr(u), refs), rest) else Panic
    else if s[0] == START_CODE && n < |c.structs| then
      var (d, rest) :- DecodeFields(c, types, |refs|, s[1..], refs + [ZeroStruct(c, n)], false);
      Ok(Dec(if d.1 then Ptr(|refs|) else prev, d.0), rest)
    else Fail
  }

  /** The field loop of a struct decoder. The flag says whether the loop body has run. */
  function DecodeFields(c: Schema, types: seq<Ty>, idx: nat, s: Bytes, refs: seq<Struct>, any: bool)
    : (r: Read<(seq<Struct>, bool)>)
    requires ValidRefs(c, refs) && idx < |refs|
    ensures r.Ok? ==> Steps(c, s, refs, r.rest, r.value.0)
    decreases |s|, 0
  {
    if s == [] then Panic
    else if s[0] == END_CODE then Ok((refs, any), s[1..])
    else
      var (u, rest) :- DecodeUint(s);
      var fts := c.structs[refs[idx].name];
      var n := ToInt(u);
      if n < 0 then Ok((refs, any), rest)
      else if n < |fts| && fts[n].Field? then
        var (d, rest') :- Decode(c, types, fts[n].ty, rest, refs, refs[idx].fields[n]);
        DecodeFields(c, types, idx, rest', SetField(d.refs, idx, n, d.v), true)
      else
        var (_, rest') :- Skip(rest);
        DecodeFields(c, types, idx, rest', refs, true)
  }

  function DecodeAny(c: Schema, types: seq<Ty>, s: Bytes, refs: seq<Struct>): (r: Read<Dec>)
    requires ValidRefs(c, refs)
    ensures r.Ok? ==> |r.rest| < |s| && Steps(c, s, refs, r.rest, r.value.refs)
    decreases |s|, 1
  {
    if s == [] then Panic
    else if s[0] == 0 then Ok(Dec(Nil, refs), s[1..])
    else
      var (n, rest) :- DecodeListHeader(s);
      if n != 2 then Fail
      else
        var (num, rest') :- DecodeUint(rest);
        if num >= |types| then Fail
        else
          var t := types[num];
          var (d, rest'') :- Decode(c, types, t, rest', refs, ZeroOf(Field(t)));
          Ok(Dec(Any(t, d.v), d.refs), rest'')
  }

  function DecodeList(c: Schema, types: seq<Ty>, ty: Ty, n: nat, done: seq<Value>, s: Bytes,
                      refs: seq<Struct>): (r: Read<Dec>)
    requires ValidRefs(c, refs)
    ensures r.Ok? ==> Steps(c, s, refs, r.rest, r.value.refs)
    decreases |s|, 3
  {
    if n == 0 then Ok(Dec(List(done), refs), s)
    else
      var (d, rest) :- Decode(c, types, ty, s, refs, ZeroOf(Field(ty)));
      DecodeList(c, types, ty, n - 1, done + [d.v], rest, d.refs)
  }

  /** `m[k] = v` on a map given by its entries. */
  function MapPut(ks: seq<Bytes>, vs: seq<Value>, k: Bytes, v: Value): (seq<Bytes>, seq<Value>)
    requires |ks| == |vs|
  {
    if k in ks then (ks, vs[IndexOf(ks, k) := v]) else (ks + [k], vs + [v])
  }

  /** The entry loop of a map decoder. `cur` is the loop variable `v`, which is declared
      outside the loop and so keeps its value when an entry's value is nil. */
  function DecodeEntries(c: Schema, types: seq<Ty>, ty: Ty, n: nat, ks: seq<Bytes>, vs: seq<Value>, cur: Value,
                         s: Bytes, refs: seq<Struct>): (r: Read<Dec>)
    requires ValidRefs(c, refs) && |ks| == |vs|
    ensures r.Ok? ==> Steps(c, s, refs, r.rest, r.value.refs)
    decreases |s|, 3
  {
    if n == 0 then Ok(Dec(Map(ks, vs), refs), s)
    else
      var (k, rest) :- DecodeString(s);
      var (d, rest') :- Decode(c, types, ty, rest, refs, cur);
      var (ks', vs') := MapPut(ks, vs, k, d.v);
      DecodeEntries(c, types, ty, n - 1, ks', vs', d.v, rest', d.refs)
  }

  // ------------------------------------------------------------------- skip

  function Skip(s: Bytes): (r: Read<()>)
    ensures r.Ok? ==> |r.rest| < |s|
    decreases |s|, 0
  {
    if s == [] then Panic
    else if s[0] < END_CODE || s[0] == NIL_CODE then Ok((), s[1..])
    else if s[0] == N_BYTES_CODE then
      var (u, rest) :- DecodeUint(s[1..]);
      var (_, rest') :- ReadBytes(ToInt(u), rest);
      Ok((), rest')
    else if s[0] == N_VALUES_CODE then
      var (u, rest) :- DecodeUint(s[1..]);
      SkipMany(ToInt(u), rest)
    else if s[0] == REF_CODE then
      var (_, rest) :- DecodeUint(s[1..]);
      Ok((), rest)
    else if s[0] == START_CODE then SkipToEnd(s[1..])
    else Fail
  }

  function SkipMany(n: int, s: Bytes): (r: Read<()>)
    ensures r.Ok? ==> |r.rest| <= |s|
    decreases |s|, 1
  {
    if n <= 0 then Ok((), s)
    else
      var (_, rest) :- Skip(s);
      SkipMany(n - 1, rest)
  }

  function SkipToEnd(s: Bytes): (r: Read<()>)
    ensures r.Ok? ==> |r.rest| <= |s|
    decreases |s|, 1
  {
    if s == [] then Panic
    else if s[0] == END_CODE then Ok((), s[1..])
    else
      var (_, rest) :- Skip(s);
      SkipToEnd(rest)
  }
}
