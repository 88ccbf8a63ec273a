/** Inserting many rows with few statements (internal/database/database.go). */
module BulkInsert {
  import opened Basics
  import opened InsertReader
  import opened InsertText
  import opened InsertMeaning

  const MAX_PARAMETERS := 1000

  // ------------------------------------------------------ rows, one by one

  /** The values cut into rows, as inserting them one by one would. */
  function Chunk<V>(values: seq<V>, n: nat): (rows: seq<seq<V>>)
    requires n > 0
  {
    if |values| < n then [] else [values[..n]] + Chunk(values[n..], n)
  }

  lemma {:induction false} ChunkAt<V>(values: seq<V>, n: nat, rows: nat, r: nat)
    requires n > 0 && |values| == rows * n && r < rows
    ensures |Chunk(values, n)| == rows && r * n + n <= |values| && Chunk(values, n)[r] == values[r * n..r * n + n]
  {
    MulStep(r, rows, n);
    MulStep(0, rows, n);
    assert (rows - 1) * n == |values[n..]|;
    if rows == 1 {
      assert Chunk(values[n..], n) == [];
    } else if r == 0 {
      ChunkAt(values[n..], n, rows - 1, 0);
    } else {
      ChunkAt(values[n..], n, rows - 1, r - 1);
      assert (r - 1) * n == r * n - n;
      assert values[n..][(r - 1) * n..(r - 1) * n + n] == values[r * n..r * n + n];
    }
  }

  lemma {:induction false} ChunkJoin<V>(a: seq<V>, b: seq<V>, n: nat, k: nat)
    requires n > 0 && |a| == k * n
    ensures Chunk(a + b, n) == Chunk(a, n) + Chunk(b, n)
    decreases k
  {
    if k == 0 {
      assert a + b == b;
    } else {
      assert |a[n..]| == (k - 1) * n && (a + b)[..n] == a[..n] && (a + b)[n..] == a[n..] + b by { MulStep(0, k, n); }
      ChunkJoin(a[n..], b, n, k - 1);
    }
  }

  // ------------------------------------------------------------- statements

  /** A statement that took effect: its text and its arguments. */
  datatype Executed<V> = Executed(text: string, args: seq<V>)

  /** The text after the head of its frame reads as rows of parameters that have arguments. */
  ghost predicate Readable<V>(frame: Insert, e: Executed<V>) {
    && Head(frame) <= e.text && ReadRows(e.text[|Head(frame)|..]).Some?
    && var rows := ReadRows(e.text[|Head(frame)|..]).value.0;
       forall r, c :: 0 <= r < |rows| && 0 <= c < |rows[r]| ==> 1 <= rows[r][c] <= |e.args|
  }

  /** The rows that a statement inserts: each parameter in its text stands for its argument. */
  ghost function RowsOf<V>(frame: Insert, e: Executed<V>): (r: seq<seq<V>>)
    requires Readable(frame, e)
  {
    var rows := ReadRows(e.text[|Head(frame)|..]).value.0;
    seq(|rows|, r requires 0 <= r < |rows| =>
      seq(|rows[r]|, c requires 0 <= c < |rows[r]| => e.args[rows[r][c] - 1]))
  }

  /** Read from its text, a statement inserts its arguments cut by the number of columns. */
  lemma RowsAreChunks<V>(frame: Insert, e: Executed<V>)
    requires frame.columns != [] && GoodInsert(frame, e)
    ensures Readable(frame, e) && RowsOf(frame, e) == Chunk(e.args, |frame.columns|)
  {
    hide Chunk, Text, ReadRows, Head;
    var n := |frame.columns|;
    var count: nat :| count * n == |e.args| && e.text == Text(frame.(rows := count));
    TextReads(frame.(rows := count));
    SameFrame(frame, count);
    var rows := ReadRows(e.text[|Head(frame)|..]).value.0;
    assert NumberedThrough(rows, count, n);
    forall r, c | 0 <= r < count && 0 <= c < n
      ensures 1 <= rows[r][c] <= |e.args|
    {
      MulStep(r, count, n);
      assert r * n >= 0;
    }
    assert count > 0;
    ChunkAt(e.args, n, count, 0);
    forall r | 0 <= r < count
      ensures RowsOf(frame, e)[r] == Chunk(e.args, n)[r]
    {
      ChunkAt(e.args, n, count, r);
      RowIsSlice(rows[r], e.args, r * n, n);
    }
  }

  lemma RowIsSlice<V>(ps: seq<int>, args: seq<V>, from: nat, n: nat)
    requires |ps| == n && from + n <= |args| && forall c :: 0 <= c < n ==> ps[c] == from + c + 1
    ensures seq(n, c requires 0 <= c < n => args[ps[c] - 1]) == args[from..from + n]
  {
  }

  lemma ChunkNone<V>(args: seq<V>, n: nat)
    requires n > 0 && args == []
    ensures Chunk(args, n) == []
  {
  }

  /** Of parameters numbered through every one has exactly one place. */
  lemma EveryParameterOnce(rows: seq<seq<int>>, count: nat, n: nat, p: nat)
    requires n > 0 && NumberedThrough(rows, count, n) && 1 <= p <= count * n
    ensures (p - 1) / n < count && rows[(p - 1) / n][(p - 1) % n] == p
    ensures forall r: nat, c: nat :: r < count && c < n && rows[r][c] == p ==> r == (p - 1) / n && c == (p - 1) % n
  {
    var q := (p - 1) / n;
    assert p - 1 == q * n + (p - 1) % n;
    if count <= q {
      MulLe(count, q, n);
    }
    forall r: nat, c: nat | r < count && c < n && rows[r][c] == p
      ensures r == q && c == (p - 1) % n
    {
      ModUnique(p - 1, n, r, c);
    }
  }

  lemma MulLe(a: nat, b: nat, n: nat)
    requires a <= b
    ensures a * n <= b * n
  {
    MulStep(a, b, n);
  }

  /** An executed insert: as many placeholders as arguments, whole rows, not too many. */
  ghost predicate GoodInsert<V>(frame: Insert, e: Executed<V>) {
    exists rows: nat ::
      rows * |frame.columns| == |e.args| && 0 < |e.args| <= MAX_PARAMETERS && e.text == Text(frame.(rows := rows))
  }

  ghost predicate GoodInserts<V>(frame: Insert, log: seq<Executed<V>>) {
    forall i :: 0 <= i < |log| ==> GoodInsert(frame, log[i])
  }

  /** The arguments of all statements, in order. */
  function Sent<V>(log: seq<Executed<V>>): seq<V> {
    if log == [] then [] else Sent(log[..|log| - 1]) + log[|log| - 1].args
  }

  /** The rows that all statements insert, in order. */
  ghost function Inserted<V>(frame: Insert, log: seq<Executed<V>>): seq<seq<V>>
    requires frame.columns != [] && GoodInserts(frame, log)
  {
    if log == [] then []
    else
      var e := log[|log| - 1];
      assert GoodInsert(frame, e);
      RowsAreChunks(frame, e);
      Inserted(frame, log[..|log| - 1]) + RowsOf(frame, e)
  }

  /** Batches insert the same rows as inserting one row at a time. */
  lemma {:induction false} InsertedIsChunk<V>(frame: Insert, log: seq<Executed<V>>)
    requires frame.columns != [] && GoodInserts(frame, log)
    ensures exists k: nat :: |Sent(log)| == k * |frame.columns|
    ensures Inserted(frame, log) == Chunk(Sent(log), |frame.columns|)
  {
    hide Chunk, Text, RowsOf, Readable;
    var n := |frame.columns|;
    if log == [] {
      ChunkNone<V>([], n);
      assert |Sent(log)| == 0 * n;
    } else {
      var e, rest := log[|log| - 1], log[..|log| - 1];
      assert GoodInsert(frame, e);
      InsertedIsChunk(frame, rest);
      var k: nat :| |Sent(rest)| == k * n;
      RowsAreChunks(frame, e);
      var rows: nat :| rows * n == |e.args|;
      ChunkJoin(Sent(rest), e.args, n, k);
      assert |Sent(log)| == (k + rows) * n;
    }
  }

  // ------------------------------------------------------------- connections

  /** What becomes of a statement: it takes effect, it is refused, or it takes effect but
      its returned rows cannot be read. */
  datatype Fate = Works | Refused | Unread

  class Connection<V(0)> {
    const prepareFails: nat -> bool
    const fate: nat -> Fate
    var prepared: nat
    var attempts: nat
    var log: seq<Executed<V>>

    constructor (prepareFails: nat -> bool, fate: nat -> Fate)
      ensures prepared == attempts == 0 && log == []
    {
      this.prepareFails, this.fate := prepareFails, fate;
      prepared, attempts, log := 0, 0, [];
    }

    method Prepare() returns (ok: bool)
      modifies this`prepared
      ensures prepared == old(prepared) + 1 && ok == !prepareFails(old(prepared))
    {
      ok := !prepareFails(prepared);
      prepared := prepared + 1;
    }

    method Exec(text: string, args: seq<V>) returns (ok: bool)
      modifies this`attempts, this`log
      ensures attempts == old(attempts) + 1 && ok == fate(old(attempts)).Works?
      ensures log == old(log) + if fate(old(attempts)).Refused? then [] else [Executed(text, args)]
    {
      var f := fate(attempts);
      attempts := attempts + 1;
      if !f.Refused? {
        log := log + [Executed(text, args)];
      }
      ok := f.Works?;
    }
  }

  datatype Prepared = NotPrepared | Prepared(text: string)

  datatype Result = Done | DivideByZero | BadRemainder | TooManyColumns | PrepareFailed | ExecFailed

  /** As many rows as a statement has room for, and the rows of so many values. */
  function RowsPerBatch(n: nat): nat
    requires n > 0
  {
    MAX_PARAMETERS / n
  }

  function TotalRows(values: nat, n: nat): nat
    requires n > 0
  {
    values / n
  }

  lemma StrideIs(n: nat, values: nat)
    requires n > 0
    ensures var per := RowsPerBatch(n);
      MAX_PARAMETERS / n * n == per * n <= MAX_PARAMETERS && (per == 0 <==> n > MAX_PARAMETERS)
        && (per * n == 0 <==> per == 0)
    ensures values % n == 0 ==> values == TotalRows(values, n) * n
  {
    var per := RowsPerBatch(n);
    assert MAX_PARAMETERS == per * n + MAX_PARAMETERS % n;
    if n > MAX_PARAMETERS {
      ModUnique(MAX_PARAMETERS, n, 0, MAX_PARAMETERS);
    } else {
      MulStep(0, per, n);
    }
  }

  lemma SentMore<V>(log: seq<Executed<V>>, e: Executed<V>)
    ensures Sent(log + [e]) == Sent(log) + e.args
  {
    assert (log + [e])[..|log|] == log;
  }

  lemma GoodMore<V>(frame: Insert, log: seq<Executed<V>>, e: Executed<V>, rows: nat)
    requires GoodInserts(frame, log) && rows * |frame.columns| == |e.args| && 0 < |e.args| <= MAX_PARAMETERS
    requires e.text == Text(frame.(rows := rows))
    ensures GoodInserts(frame, log + [e])
  {
    hide Text;
    assert GoodInsert(frame, e);
  }

  /** Prepares a statement for whole rows. */
  method PrepareRows<V(0)>(db: Connection<V>, frame: Insert, nvalues: nat, ghost rows: nat)
    returns (ok: bool, text: string)
    requires frame.columns != [] && nvalues == rows * |frame.columns|
    modifies db`prepared
    ensures db.prepared == old(db.prepared) + 1 && text == Text(frame.(rows := rows))
    ensures ok == !db.prepareFails(old(db.prepared))
  {
    hide Text;
    MultipleMod(rows, |frame.columns|);
    text := BuildInsertQuery(frame.table, frame.columns, frame.returning, nvalues, frame.conflict);
    assert frame.(rows := rows) == Insert(frame.table, frame.columns, rows, frame.conflict, frame.returning);
    ok := db.Prepare();
  }

  /** One statement and its place among those that took effect. */
  method RunStatement<V(0)>(db: Connection<V>, frame: Insert, text: string, values: seq<V>, left: nat, right: nat,
                            ghost rows: nat, ghost batch: seq<Executed<V>>)
    returns (ok: bool, ghost batch': seq<Executed<V>>)
    requires left < right <= |values| && right - left <= MAX_PARAMETERS && rows * |frame.columns| == right - left
    requires text == Text(frame.(rows := rows))
    requires GoodInserts(frame, batch) && Sent(batch) == values[..left]
    modifies db`attempts, db`log
    ensures GoodInserts(frame, batch') && exists e :: db.log == old(db.log) + e && batch' == batch + e
    ensures db.attempts == old(db.attempts) + 1 && ok == db.fate(old(db.attempts)).Works?
    ensures Sent(batch') == values[..if db.fate(old(db.attempts)).Refused? then left else right]
  {
    hide Text, GoodInserts, Sent;
    var valueSlice := values[left..right];
    ghost var e := Executed(text, valueSlice);
    ok := db.Exec(text, valueSlice);
    SentMore(batch, e);
    GoodMore(frame, batch, e, rows);
    assert values[..left] + valueSlice == values[..right];
    ghost var more := if db.fate(old(db.attempts)).Refused? then [] else [e];
    batch' := batch + more;
    assert batch + [] == batch;
  }

  // ---------------------------------------------------------- what goes wrong

  /** Batch `k` is due: rows are left for it. */
  predicate Due(total: nat, per: nat, k: nat) {
    k * per < total
  }

  /** Batch `k` needs a new statement: it is the first, or it is not a full one. */
  predicate NeedsStatement(total: nat, per: nat, k: nat) {
    k == 0 || (k + 1) * per > total
  }

  /** The calls that a run makes: which prepares and which statements fail, and how many of
      each were made before. */
  datatype Calls = Calls(prepareFails: nat -> bool, prepared: nat, fate: nat -> Fate, attempts: nat)

  predicate PrepareWorks(c: Calls, total: nat, per: nat, k: nat) {
    NeedsStatement(total, per, k) ==> !c.prepareFails(c.prepared + if k == 0 then 0 else 1)
  }

  predicate ExecWorks(c: Calls, k: nat) {
    c.fate(c.attempts + k).Works?
  }

  predicate BatchWorks(c: Calls, total: nat, per: nat, k: nat) {
    PrepareWorks(c, total, per, k) && ExecWorks(c, k)
  }

  /** `k` batches worked, and `r` is what the next one makes of it: none is due, or its
      prepare fails, or else its statement. */
  predicate IsOutcome(c: Calls, total: nat, per: nat, r: Result, k: nat) {
    && (forall j :: 0 <= j < k ==> Due(total, per, j) && BatchWorks(c, total, per, j))
    && match r
       case Done => !Due(total, per, k)
       case PrepareFailed => Due(total, per, k) && !PrepareWorks(c, total, per, k)
       case ExecFailed => Due(total, per, k) && PrepareWorks(c, total, per, k) && !ExecWorks(c, k)
       case _ => false
  }

  lemma DueBefore(total: nat, per: nat, j: nat, k: nat)
    requires j <= k && Due(total, per, k)
    ensures Due(total, per, j)
  {
    MulLe(j, k, per);
  }

  /** The first call that fails decides the result. */
  lemma OutcomeUnique(c: Calls, total: nat, per: nat, r: Result, k: nat, r': Result, k': nat)
    requires IsOutcome(c, total, per, r, k) && IsOutcome(c, total, per, r', k')
    ensures r == r' && k == k'
  {
    hide Due, PrepareWorks, ExecWorks;
    assert !(k < k') && !(k' < k);
  }

  /** Success means that every call of a batch that is due works, and the other way round. */
  lemma DoneExactly(c: Calls, total: nat, per: nat, r: Result, k: nat)
    requires IsOutcome(c, total, per, r, k)
    ensures r == Done <==> forall j :: 0 <= j && Due(total, per, j) ==> BatchWorks(c, total, per, j)
  {
    hide PrepareWorks, ExecWorks, Due;
    if r == Done {
      forall j | 0 <= j && Due(total, per, j)
        ensures BatchWorks(c, total, per, j)
      {
        if k <= j {
          DueBefore(total, per, k, j);
        }
      }
    }
  }

  /** The rows that have reached the table when `k` batches worked. */
  function RowsSent(c: Calls, total: nat, per: nat, r: Result, k: nat): nat {
    var batches := if r == ExecFailed && c.fate(c.attempts + k).Unread? then k + 1 else k;
    if batches * per < total then batches * per else total
  }

  lemma OutcomeStep(c: Calls, total: nat, per: nat, k: nat)
    requires forall j :: 0 <= j < k ==> Due(total, per, j) && BatchWorks(c, total, per, j)
    requires Due(total, per, k) && BatchWorks(c, total, per, k)
    ensures forall j :: 0 <= j < k + 1 ==> Due(total, per, j) && BatchWorks(c, total, per, j)
  {
    hide Due, BatchWorks;
  }

  /** Bounds in values and bounds in rows. */
  lemma BoundsInRows(n: nat, total: nat, per: nat, k: nat)
    requires n > 0
    ensures k * per * n < total * n <==> Due(total, per, k)
    ensures k * per * n + per * n > total * n <==> (k + 1) * per > total
    ensures (k + 1) * per * n == k * per * n + per * n
  {
    assert (k + 1) * per == k * per + per;
    assert (k * per + per) * n == k * per * n + per * n;
    MulLtIff(k * per, total, n);
    MulLtIff(total, (k + 1) * per, n);
  }

  /** The loop over the batches. */
  method InsertBatches<V(0)>(db: Connection<V>, frame: Insert, values: seq<V>, stride: nat, ghost per: nat,
                             ghost total: nat)
    returns (r: Result, ghost batch: seq<Executed<V>>, ghost k: nat)
    requires frame.columns != [] && |values| == total * |frame.columns| && stride == per * |frame.columns|
    requires 0 < stride <= MAX_PARAMETERS
    modifies db
    ensures db.log == old(db.log) + batch && db.prepared <= old(db.prepared) + 2
    ensures GoodInserts(frame, batch) && Sent(batch) <= values && (r == Done ==> Sent(batch) == values)
    ensures var c := Calls(db.prepareFails, old(db.prepared), db.fate, old(db.attempts));
      IsOutcome(c, total, per, r, k) && |Sent(batch)| == RowsSent(c, total, per, r, k) * |frame.columns|
  {
    hide *;
    ghost var n, c := |frame.columns|, Calls(db.prepareFails, db.prepared, db.fate, db.attempts);
    batch, k := [], 0;
    NothingYet<V>(frame);
    var stmt := NotPrepared;
    var leftBound := 0;
    MultipleZero(per, n);
    while leftBound < |values|
      invariant leftBound == k * per * n
      invariant db.log == old(db.log) + batch && GoodInserts(frame, batch)
      invariant Sent(batch) == values[..if leftBound < |values| then leftBound else |values|]
      invariant leftBound < |values| ==>
        stmt.NotPrepared? == (k == 0) && db.prepared == old(db.prepared) + (if k == 0 then 0 else 1)
      invariant stmt.Prepared? && leftBound < |values| ==> stmt.text == Text(frame.(rows := per))
      invariant db.prepared <= old(db.prepared) + 2 && db.attempts == old(db.attempts) + k
      invariant forall j :: 0 <= j < k ==> Due(total, per, j) && BatchWorks(c, total, per, j)
      decreases |values| - leftBound
    {
      BoundsInRows(n, total, per, k);
      NeedsIs(c, total, per, k);
      var rightBound := leftBound + stride;
      ghost var rows := per;
      var ok := true;
      if rightBound <= |values| && stmt.NotPrepared? {
        var text;
        ok, text := PrepareRows(db, frame, stride, per);
        stmt := Prepared(text);
      } else if rightBound > |values| {
        rightBound := |values|;
        rows := total - k * per;
        assert |values| - leftBound == rows * n by { Remaining(total, k * per, n); }
        var text;
        ok, text := PrepareRows(db, frame, rightBound - leftBound, rows);
        stmt := Prepared(text);
      }
      if !ok {
        r := PrepareFailed;
        StopsAt(c, total, per, r, k, n, |values|);
        return;
      }
      ok, batch := RunStatement(db, frame, stmt.text, values, leftBound, rightBound, rows, batch);
      if !ok {
        r := ExecFailed;
        StopsAt(c, total, per, r, k, n, |values|);
        return;
      }
      OutcomeStep(c, total, per, k);
      k, leftBound := k + 1, leftBound + stride;
    }
    r := Done;
    assert values[..|values|] == values;
    BoundsInRows(n, total, per, k);
    StopsAt(c, total, per, r, k, n, |values|);
  }

  lemma MultipleZero(per: nat, n: nat)
    ensures 0 * per * n == 0
  {
  }

  lemma Remaining(total: nat, row: nat, n: nat)
    requires row <= total
    ensures total * n - row * n == (total - row) * n
  {
  }

  lemma NeedsIs(c: Calls, total: nat, per: nat, k: nat)
    ensures NeedsStatement(total, per, k) <==> k == 0 || (k + 1) * per > total
    ensures PrepareWorks(c, total, per, k) <==>
      (NeedsStatement(total, per, k) ==> !c.prepareFails(c.prepared + if k == 0 then 0 else 1))
    ensures ExecWorks(c, k) <==> c.fate(c.attempts + k).Works?
    ensures BatchWorks(c, total, per, k) <==> PrepareWorks(c, total, per, k) && ExecWorks(c, k)
    ensures Due(total, per, k) ==> k * per < total
  {
  }

  /** The outcome at the batch where the loop stops, and the values sent by then. */
  lemma StopsAt(c: Calls, total: nat, per: nat, r: Result, k: nat, n: nat, values: nat)
    requires n > 0 && values == total * n
    requires forall j :: 0 <= j < k ==> Due(total, per, j) && BatchWorks(c, total, per, j)
    requires r == Done || r == PrepareFailed || r == ExecFailed
    requires r == Done ==> !Due(total, per, k)
    requires r == PrepareFailed ==> Due(total, per, k) && !PrepareWorks(c, total, per, k)
    requires r == ExecFailed ==> Due(total, per, k) && PrepareWorks(c, total, per, k) && !ExecWorks(c, k)
    ensures IsOutcome(c, total, per, r, k)
    ensures var left, right := k * per * n, k * per * n + per * n;
      RowsSent(c, total, per, r, k) * n ==
        if r == ExecFailed && c.fate(c.attempts + k).Unread? then (if right < values then right else values)
        else if left < values then left else values
  {
    hide Due, PrepareWorks, ExecWorks, BatchWorks;
    BoundsInRows(n, total, per, k);
    assert k * per * n < total * n <==> k * per < total by { MulLtIff(k * per, total, n); }
    assert (k + 1) * per * n < total * n <==> (k + 1) * per < total by { MulLtIff((k + 1) * per, total, n); }
  }

  /** `bulkInsert`: on success every value is sent exactly once and in order, in statements of
      whole rows; on failure the rows of a first part are. The result is decided by the first
      prepare or statement that fails. */
  method BulkInsert<V(0)>(db: Connection<V>, table: string, columns: seq<string>, returning: seq<string>,
                          values: seq<V>, conflictAction: string)
    returns (r: Result, ghost batch: seq<Executed<V>>, ghost k: nat)
    modifies db
    ensures r == DivideByZero <==> columns == []
    ensures r == BadRemainder <==> columns != [] && |values| % |columns| != 0
    ensures r == TooManyColumns <==> columns != [] && |values| % |columns| == 0 && |columns| > MAX_PARAMETERS
    ensures r == DivideByZero || r == BadRemainder || r == TooManyColumns ==> batch == []
    ensures db.log == old(db.log) + batch && db.prepared <= old(db.prepared) + 2
    ensures var frame := Insert(table, columns, 0, conflictAction, returning);
      GoodInserts(frame, batch) && (columns != [] ==> Inserted(frame, batch) <= Chunk(values, |columns|))
    ensures r == Done ==>
      columns != [] && Sent(batch) == values
        && Inserted(Insert(table, columns, 0, conflictAction, returning), batch) == Chunk(values, |columns|)
    ensures columns != [] && |values| % |columns| == 0 && |columns| <= MAX_PARAMETERS ==>
      var c := Calls(db.prepareFails, old(db.prepared), db.fate, old(db.attempts));
      var total, per := TotalRows(|values|, |columns|), RowsPerBatch(|columns|);
      && IsOutcome(c, total, per, r, k) && |Sent(batch)| == RowsSent(c, total, per, r, k) * |columns|
      && (r == Done <==> forall j :: 0 <= j && Due(total, per, j) ==> BatchWorks(c, total, per, j))
  {
    hide *;
    ghost var frame := Insert(table, columns, 0, conflictAction, returning);
    batch, k := [], 0;
    NothingYet<V>(frame);
    assert db.log == old(db.log) + batch;
    if columns == [] {
      return DivideByZero, batch, k;
    }
    NothingInserted<V>(frame);
    var n := |columns|;
    if |values| % n != 0 {
      return BadRemainder, batch, k;
    }
    var stride := MAX_PARAMETERS / n * n;
    StrideIs(n, |values|);
    if stride == 0 {
      return TooManyColumns, batch, k;
    }
    ghost var total, per := TotalRows(|values|, n), RowsPerBatch(n);
    r, batch, k := InsertBatches(db, Insert(table, columns, 0, conflictAction, returning), values, stride, per, total);
    Inserts(frame, batch, values, Calls(db.prepareFails, old(db.prepared), db.fate, old(db.attempts)), total, per, r,
      k);
  }

  lemma Inserts<V>(frame: Insert, batch: seq<Executed<V>>, values: seq<V>, c: Calls, total: nat, per: nat, r: Result,
                   k: nat)
    requires frame.columns != [] && GoodInserts(frame, batch) && Sent(batch) <= values
    requires (r == Done ==> Sent(batch) == values)
    requires IsOutcome(c, total, per, r, k)
    ensures Inserted(frame, batch) <= Chunk(values, |frame.columns|)
    ensures r == Done ==> Inserted(frame, batch) == Chunk(values, |frame.columns|)
    ensures r == Done || r == PrepareFailed || r == ExecFailed
    ensures r == Done <==> forall j :: 0 <= j && Due(total, per, j) ==> BatchWorks(c, total, per, j)
  {
    hide *;
    InsertedIsChunk(frame, batch);
    ChunkPrefix(Sent(batch), values, |frame.columns|);
    OutcomeKinds(c, total, per, r, k);
    DoneExactly(c, total, per, r, k);
  }

  lemma OutcomeKinds(c: Calls, total: nat, per: nat, r: Result, k: nat)
    requires IsOutcome(c, total, per, r, k)
    ensures r == Done || r == PrepareFailed || r == ExecFailed
  {
  }

  lemma NothingInserted<V>(frame: Insert)
    requires frame.columns != [] && GoodInserts<V>(frame, [])
    ensures Inserted<V>(frame, []) == []
  {
  }

  lemma ChunkPrefix<V>(a: seq<V>, values: seq<V>, n: nat)
    requires n > 0 && a <= values && exists k: nat :: |a| == k * n
    ensures Chunk(a, n) <= Chunk(values, n)
  {
    var k: nat :| |a| == k * n;
    assert values == a + values[|a|..];
    ChunkJoin(a, values[|a|..], n, k);
  }

  lemma NothingYet<V>(frame: Insert)
    ensures GoodInserts<V>(frame, []) && Sent<V>([]) == []
  {
  }

  lemma MulLtIff(a: nat, b: nat, n: nat)
    requires n > 0
    ensures a * n < b * n <==> a < b
  {
    if b <= a {
      MulLe(b, a, n);
    } else {
      MulStep(a, b, n);
    }
  }
}
