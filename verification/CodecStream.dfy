/** Whole streams: `Encode` called once per root, `Bytes`, and `Decode` called as often.
    The main result is `StreamRoundTrip`. */
module CodecStream {
  import opened Basics
  import opened CodecBytes
  import opened CodecGraph
  import opened CodecDecode
  import opened CodecRoundTrip
  import opened CodecClosed
  import opened CodecFaithful
  import opened CodecPlain

  // ------------------------------------------------------------ reachability

  /** A list of structs that holds every pointer of the roots and of its own structs. */
  predicate ClosedUnder(heap: Heap, roots: seq<Value>, s: seq<Id>) {
    AllCovered(roots, 0, s) && ClosedFrom(heap, s, 0)
  }

  /** `id` is reachable from the roots: it is in every closed list. */
  ghost predicate Reachable(heap: Heap, roots: seq<Value>, id: Id) {
    forall s: seq<Id> :: ClosedUnder(heap, roots, s) ==> id in s
  }

  predicate Within(m: Memo, s: seq<Id>) {
    forall j :: 0 <= j < |m.seen| ==> m.seen[j] in s
  }

  lemma {:induction false} Minimal(c: Schema, heap: Heap, ty: Ty, v: Value, m: Memo, s: seq<Id>)
    requires WellTyped(c, heap) && ValidMemo(c, heap, m) && HasType(c, heap, ty, v)
    requires ClosedFrom(heap, s, 0) && Covered(v, s) && Within(m, s)
    ensures Within(Encode(c, heap, ty, v, m).memo, s)
    decreases Unseen(heap, m.seen), v, 1
  {
    hide WellTyped, ValidMemo, Unseen, EncodePtr, EncodeList, EncodeEntries, AllHaveType, NoDup, ShortKeys, AllCovered,
         ClosedFrom;
    match v
    case Ptr(id) => MinimalPtr(c, heap, id, m, s);
    case Any(t, w) =>
      MemoTypeValid(c, heap, m, t);
      Minimal(c, heap, t, w, MemoType(m, t), s);
    case List(es) => MinimalList(c, heap, ty.elem, es, 0, m, s);
    case Map(ks, vs) => MinimalEntries(c, heap, ty.elem, ks, vs, 0, m, s);
    case _ =>
  }

  lemma {:induction false} MinimalPtr(c: Schema, heap: Heap, id: Id, m: Memo, s: seq<Id>)
    requires WellTyped(c, heap) && ValidMemo(c, heap, m) && id in heap
    requires ClosedFrom(heap, s, 0) && id in s && Within(m, s)
    ensures Within(EncodePtr(c, heap, id, m).memo, s)
    decreases Unseen(heap, m.seen), Ptr(id), 0
  {
    hide ValidMemo, Unseen, EncodeFields, HasType, AllCovered;
    if id !in m.seen {
      MeetValid(c, heap, m, id);
      var i := IndexOf(s, id);
      assert AllCovered(heap[s[i]].fields, 0, s);
      MinimalFields(c, heap, c.structs[heap[id].name], heap[id].fields, 0, Meet(m, id), s);
    }
  }

  lemma {:induction false} MinimalList(c: Schema, heap: Heap, ty: Ty, es: seq<Value>, k: nat, m: Memo, s: seq<Id>)
    requires WellTyped(c, heap) && ValidMemo(c, heap, m) && AllHaveType(c, heap, ty, es) && k <= |es|
    requires ClosedFrom(heap, s, 0) && AllCovered(es, 0, s) && Within(m, s)
    ensures Within(EncodeList(c, heap, ty, es, k, m).memo, s)
    decreases Unseen(heap, m.seen), es, |es| - k
  {
    hide WellTyped, ValidMemo, Unseen, Encode, HasType, ClosedFrom, Covered, Within;
    if k < |es| {
      var a := Encode(c, heap, ty, es[k], m);
      UnseenShrinks(heap, m.seen, a.memo.seen);
      Minimal(c, heap, ty, es[k], m, s);
      MinimalList(c, heap, ty, es, k + 1, a.memo, s);
    }
  }

  lemma {:induction false} MinimalEntries(c: Schema, heap: Heap, ty: Ty, ks: seq<Bytes>, vs: seq<Value>, k: nat,
                                          m: Memo, s: seq<Id>)
    requires WellTyped(c, heap) && ValidMemo(c, heap, m) && AllHaveType(c, heap, ty, vs)
    requires |ks| == |vs| && ShortKeys(ks) && k <= |ks|
    requires ClosedFrom(heap, s, 0) && AllCovered(vs, 0, s) && Within(m, s)
    ensures Within(EncodeEntries(c, heap, ty, ks, vs, k, m).memo, s)
    decreases Unseen(heap, m.seen), vs, |vs| - k
  {
    hide WellTyped, ValidMemo, Unseen, Encode, HasType, ClosedFrom, Covered, Within, ShortKeys, EncodeString;
    if k < |ks| {
      var a := Encode(c, heap, ty, vs[k], m);
      UnseenShrinks(heap, m.seen, a.memo.seen);
      Minimal(c, heap, ty, vs[k], m, s);
      MinimalEntries(c, heap, ty, ks, vs, k + 1, a.memo, s);
    }
  }

  lemma {:induction false} MinimalFields(c: Schema, heap: Heap, fts: seq<FieldTy>, fs: seq<Value>, k: nat, m: Memo,
                                         s: seq<Id>)
    requires WellTyped(c, heap) && ValidMemo(c, heap, m) && FieldsHaveType(c, heap, fts, fs)
    requires k <= |fs| < TWO_63
    requires ClosedFrom(heap, s, 0) && AllCovered(fs, 0, s) && Within(m, s)
    ensures Within(EncodeFields(c, heap, fts, fs, k, m).memo, s)
    decreases Unseen(heap, m.seen), fs, |fs| - k
  {
    hide WellTyped, ValidMemo, Unseen, Encode, HasType, ClosedFrom, Covered, Within;
    if k < |fs| {
      assert FieldHasType(c, heap, fts[k], fs[k]);
      if IsZero(fs[k]) {
        MinimalFields(c, heap, fts, fs, k + 1, m, s);
      } else {
        var a := Encode(c, heap, fts[k].ty, fs[k], m);
        UnseenShrinks(heap, m.seen, a.memo.seen);
        Minimal(c, heap, fts[k].ty, fs[k], m, s);
        MinimalFields(c, heap, fts, fs, k + 1, a.memo, s);
      }
    }
  }

  /** The encoder meets exactly the structs that are reachable from the roots. */
  lemma MetIsReachable(c: Schema, heap: Heap, roots: seq<Value>, id: Id)
    requires WellTyped(c, heap) && AllHaveType(c, heap, TAny, roots)
    ensures id in EncodeRoots(c, heap, roots).memo.seen <==> Reachable(heap, roots, id)
  {
    hide WellTyped, EncodeList, HasType, Covered;
    var seen := EncodeRoots(c, heap, roots).memo.seen;
    ClosedList(c, heap, TAny, roots, 0, Memo([], []));
    assert ClosedUnder(heap, roots, seen);
    forall s: seq<Id> | ClosedUnder(heap, roots, s) && id in seen
      ensures id in s
    {
      MinimalList(c, heap, TAny, roots, 0, Memo([], []), s);
    }
  }

  // ------------------------------------------------------------------ streams

  /** The type registry: each registered type has a name, and the name leads back to it. */
  datatype Registry = Registry(names: map<Ty, Bytes>, byName: map<Bytes, Ty>)

  predicate ValidRegistry(c: Schema, g: Registry) {
    forall t :: t in c.registered ==>
      t in g.names && |g.names[t]| < TWO_63 && g.names[t] in g.byName && g.byName[g.names[t]] == t
  }

  function EncodeRoots(c: Schema, heap: Heap, roots: seq<Value>): (r: Encoded)
    requires WellTyped(c, heap) && AllHaveType(c, heap, TAny, roots)
    ensures ValidMemo(c, heap, r.memo)
  {
    EncodeList(c, heap, TAny, roots, 0, Memo([], []))
  }

  predicate Named(g: Registry, types: seq<Ty>) {
    forall i :: 0 <= i < |types| ==> types[i] in g.names && |g.names[types[i]]| < TWO_63
  }

  function EncodeNames(g: Registry, types: seq<Ty>): Bytes
    requires Named(g, types)
  {
    if types == [] then [] else EncodeString(g.names[types[0]]) + EncodeNames(g, types[1..])
  }

  function DecodeNames(g: Registry, n: nat, done: seq<Ty>, s: Bytes): Read<seq<Ty>> {
    if n == 0 then Ok(done, s)
    else
      var (name, rest) :- DecodeString(s);
      if name in g.byName then DecodeNames(g, n - 1, done + [g.byName[name]], rest) else Fail
  }

  lemma {:induction false} NamesRoundTrip(c: Schema, g: Registry, types: seq<Ty>, done: seq<Ty>, tail: Bytes)
    requires ValidRegistry(c, g) && forall i :: 0 <= i < |types| ==> types[i] in c.registered
    ensures Named(g, types)
    ensures DecodeNames(g, |types|, done, EncodeNames(g, types) + tail) == Ok(done + types, tail)
  {
    hide EncodeString, DecodeString;
    if types == [] {
      assert [] + tail == tail && done + types == done;
    } else {
      var name := g.names[types[0]];
      var rest := EncodeNames(g, types[1..]) + tail;
      assert EncodeNames(g, types) + tail == EncodeString(name) + rest;
      StringRoundTrip(name, rest);
      NamesRoundTrip(c, g, types[1..], done + [types[0]], tail);
      assert done + [types[0]] + types[1..] == done + types;
    }
  }

  /** `Bytes`: the names of the types met, then the encoded roots. */
  function EncodeStream(c: Schema, g: Registry, heap: Heap, roots: seq<Value>): Bytes
    requires WellTyped(c, heap) && AllHaveType(c, heap, TAny, roots) && ValidRegistry(c, g)
  {
    var e := EncodeRoots(c, heap, roots);
    SeenIsSmall(c, heap, e.memo);
    ListHeader(|e.memo.types|) + EncodeNames(g, e.memo.types) + e.bytes
  }

  /** `decodeInitial`, then `Decode` `n` times. */
  function DecodeStream(c: Schema, g: Registry, n: nat, s: Bytes): Read<Dec> {
    var (k, rest) :- DecodeListHeader(s);
    if k < 0 then Panic
    else
      var (types, rest') :- DecodeNames(g, k, [], rest);
      DecodeList(c, types, TAny, n, [], rest', [])
  }

  lemma MetRegistered(c: Schema, heap: Heap, m: Memo)
    requires ValidMemo(c, heap, m)
    ensures forall i :: 0 <= i < |m.types| ==> m.types[i] in c.registered
  {
  }

  lemma NothingYet(c: Schema, d: Schema, heap: Heap)
    requires WellTyped(c, heap) && Compatible(c, d)
    ensures Ready(c, d, heap, Memo([], []), [], []) && ValidMemo(c, heap, Memo([], [])) && ValidRefs(d, [])
    ensures GotFits(heap, Memo([], []), [])
  {
    hide WellTyped, Compatible;
  }

  /** A stream of schema `c` in a decoder of schema `d` gives what `ExpectList` says. */
  lemma StreamOutcome(c: Schema, d: Schema, g: Registry, heap: Heap, roots: seq<Value>)
    requires WellTyped(c, heap) && AllHaveType(c, heap, TAny, roots) && ValidRegistry(c, g) && Compatible(c, d)
    requires ValidMemo(c, heap, Memo([], [])) && ValidRefs(d, [])
    ensures DecodeStream(d, g, |roots|, EncodeStream(c, g, heap, roots))
         == AsRead(ExpectList(c, d, heap, TAny, roots, 0, [], Memo([], []), []), [])
  {
    hide WellTyped, ValidMemo, ValidRegistry, EncodeList, ExpectList, DecodeList, DecodeListHeader, ListHeader,
         AllHaveType, DecodeNames, EncodeNames, Compatible, ValidRefs;
    var m0 := Memo([], []);
    var e := EncodeRoots(c, heap, roots);
    SeenIsSmall(c, heap, e.memo);
    MetRegistered(c, heap, e.memo);
    NamesRoundTrip(c, g, e.memo.types, [], e.bytes);
    var names := EncodeNames(g, e.memo.types);
    assert EncodeStream(c, g, heap, roots) == ListHeader(|e.memo.types|) + (names + e.bytes);
    ListHeaderRoundTrip(|e.memo.types|, names + e.bytes);
    assert [] + e.memo.types == e.memo.types && e.bytes + [] == e.bytes;
    SimulationList(c, d, heap, e.memo.types, TAny, roots, 0, [], m0, [], []);
  }

  /** What a decoder of schema `d` allocates for a stream of schema `c`, and whether every
      reference that it follows means the same struct to both. */
  function FollowRoots(c: Schema, d: Schema, heap: Heap, roots: seq<Value>): (r: Trail)
    requires WellTyped(c, heap) && AllHaveType(c, heap, TAny, roots)
    ensures InHeap(heap, r.got) && NoDup(r.got)
  {
    FollowList(c, d, heap, TAny, roots, 0, Memo([], []), [])
  }

  /** The stream was decoded into the roots and copies of the structs in `got`. */
  predicate Copied(d: Schema, heap: Heap, roots: seq<Value>, got: seq<Id>, r: Read<Dec>)
    requires InHeap(heap, got)
  {
    r == Ok(Dec(List(RenameFrom(roots, 0, got)), Copies(d, heap, got, 0, got)), [])
  }

  /** Decoding a stream with other fields than it was written with gives back the roots and a
      copy, as far as the decoder knows the fields, of every struct that is allocated,
        exactly when no root and none of these structs
      holds a nil interface inside a list or a nil map value after another one in a field that
      is kept, none of them is all zero, and every reference that is followed means the same
      struct to both sides. */
  lemma StreamReads(c: Schema, d: Schema, g: Registry, heap: Heap, roots: seq<Value>)
    requires WellTyped(c, heap) && AllHaveType(c, heap, TAny, roots) && ValidRegistry(c, g) && Compatible(c, d)
    ensures var f := FollowRoots(c, d, heap, roots);
      Copied(d, heap, roots, f.got, DecodeStream(d, g, |roots|, EncodeStream(c, g, heap, roots)))
      <==> AllGood(TAny, roots, 0) && f.aligned && GoodFrom(d, heap, f.got, 0)
  {
    hide WellTyped, AllHaveType, ValidRegistry, Compatible, EncodeStream, DecodeStream, ExpectList, FollowList,
         RenameFrom,
         Copies, AllGood, GoodFrom, ValidMemo, ValidRefs, GotFits, Ready, NoDup, InHeap;
    NothingYet(c, d, heap);
    StreamOutcome(c, d, g, heap, roots);
    var f := FollowRoots(c, d, heap, roots);
    ExactList(c, d, heap, TAny, roots, 0, [], Memo([], []), [], [], f.got);
    assert [] + RenameFrom(roots, 0, f.got) == RenameFrom(roots, 0, f.got);
    assert [] + Copies(d, heap, f.got, 0, f.got) == Copies(d, heap, f.got, 0, f.got);
  }

  /** If what is skipped holds no pointers, all that is met is allocated, and all references are
      right. */
  lemma PlainRoots(c: Schema, d: Schema, heap: Heap, roots: seq<Value>)
    requires WellTyped(c, heap) && AllHaveType(c, heap, TAny, roots) && Compatible(c, d) && PlainSkips(d, heap)
    ensures FollowRoots(c, d, heap, roots) == Trail(EncodeRoots(c, heap, roots).memo.seen, true)
  {
    hide WellTyped, AllHaveType, Compatible, PlainSkips, EncodeList, FollowList, ValidMemo, ValidRefs, GotFits, Ready;
    NothingYet(c, d, heap);
    AllMetList(c, d, heap, TAny, roots, 0, Memo([], []));
  }

  lemma GoodReachable(c: Schema, d: Schema, heap: Heap, roots: seq<Value>)
    requires WellTyped(c, heap) && AllHaveType(c, heap, TAny, roots)
    ensures var seen := EncodeRoots(c, heap, roots).memo.seen;
      && NoDup(seen) && InHeap(heap, seen) && (forall id :: id in seen <==> Reachable(heap, roots, id))
      && (GoodFrom(d, heap, seen, 0) <==>
           forall id :: Reachable(heap, roots, id) ==> id in heap && GoodStruct(d, heap[id]))
  {
    hide WellTyped, EncodeList, HasType, GoodStruct, Reachable;
    var seen := EncodeRoots(c, heap, roots).memo.seen;
    forall id
      ensures id in seen <==> Reachable(heap, roots, id)
    {
      MetIsReachable(c, heap, roots, id);
    }
    if GoodFrom(d, heap, seen, 0) {
      forall id | Reachable(heap, roots, id)
        ensures id in heap && GoodStruct(d, heap[id])
      {
        assert seen[IndexOf(seen, id)] == id;
      }
    }
  }

  /** If the fields that the decoder does not know hold no pointers, it gives back the roots and a
      copy of every reachable struct, as far as it knows the fields, under the same condition on
      what it keeps. */
  lemma StreamDropsFields(c: Schema, d: Schema, g: Registry, heap: Heap, roots: seq<Value>)
    requires WellTyped(c, heap) && AllHaveType(c, heap, TAny, roots) && ValidRegistry(c, g) && Compatible(c, d)
    requires PlainSkips(d, heap)
    ensures var seen := EncodeRoots(c, heap, roots).memo.seen;
      && InHeap(heap, seen) && (forall id :: id in seen <==> Reachable(heap, roots, id))
      && (Copied(d, heap, roots, seen, DecodeStream(d, g, |roots|, EncodeStream(c, g, heap, roots)))
          <==> AllGood(TAny, roots, 0) && forall id :: Reachable(heap, roots, id) ==>
            id in heap && GoodStruct(d, heap[id]))
  {
    hide *;
    PlainRoots(c, d, heap, roots);
    GoodReachable(c, d, heap, roots);
    StreamReads(c, d, g, heap, roots);
  }

  /** Decoding a stream gives back the roots and a copy of every reachable struct, with all
      sharing and cycles and nothing else, exactly when no root or reachable struct holds a
      nil interface inside a list or a nil map value after a non-nil one, and no reachable
      struct is all zero. */
  lemma StreamRoundTrip(c: Schema, g: Registry, heap: Heap, roots: seq<Value>)
    requires WellTyped(c, heap) && AllHaveType(c, heap, TAny, roots) && ValidRegistry(c, g)
    ensures var seen := EncodeRoots(c, heap, roots).memo.seen;
      && NoDup(seen) && InHeap(heap, seen) && (forall id :: id in seen <==> Reachable(heap, roots, id))
      && (Copied(c, heap, roots, seen, DecodeStream(c, g, |roots|, EncodeStream(c, g, heap, roots)))
          <==> AllGood(TAny, roots, 0) && forall id :: Reachable(heap, roots, id) ==>
            id in heap && GoodStruct(c, heap[id]))
  {
    hide *;
    SameIsNewer(c);
    NewerPlain(c, c, heap);
    GoodReachable(c, c, heap, roots);
    StreamDropsFields(c, c, g, heap, roots);
  }

  /** A decoder that knows more fields reads an old stream exactly when an old decoder does: it
      gives back a copy of every reachable struct, with zero in the new fields. */
  lemma StreamAddsFields(c: Schema, d: Schema, g: Registry, heap: Heap, roots: seq<Value>)
    requires WellTyped(c, heap) && AllHaveType(c, heap, TAny, roots) && ValidRegistry(c, g) && Newer(c, d)
    ensures var seen, s := EncodeRoots(c, heap, roots).memo.seen, EncodeStream(c, g, heap, roots);
      && InHeap(heap, seen) && (forall id :: id in seen <==> Reachable(heap, roots, id))
      && (Copied(d, heap, roots, seen, DecodeStream(d, g, |roots|, s))
          <==> Copied(c, heap, roots, seen, DecodeStream(c, g, |roots|, s)))
  {
    hide WellTyped, AllHaveType, ValidRegistry, Compatible, NewerFields, Reachable, EncodeRoots, EncodeStream,
         DecodeStream, Copied, GoodStruct, InHeap, AllGood;
    NewerPlain(c, d, heap);
    StreamDropsFields(c, d, g, heap, roots);
    StreamRoundTrip(c, g, heap, roots);
    forall id | id in heap
      ensures GoodStruct(d, heap[id]) <==> GoodStruct(c, heap[id])
    {
      StructAt(c, heap, id);
      NewerGood(c, d, heap, heap[id]);
    }
  }
}
