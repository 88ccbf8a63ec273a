/** Updating many rows with few statements (internal/database/database.go). */
module BulkUpdate {
  import opened BulkInsert

  const MAX_ARRAY_LEN := 10000

  predicate Even<V>(columns: seq<seq<V>>, rows: nat) {
    forall c :: 0 <= c < |columns| ==> |columns[c]| == rows
  }

  function Row<V>(columns: seq<seq<V>>, rows: nat, i: nat): (row: seq<V>)
    requires Even(columns, rows) && i < rows
    ensures |row| == |columns| && forall c :: 0 <= c < |columns| ==> row[c] == columns[c][i]
  {
    seq(|columns|, c requires 0 <= c < |columns| => columns[c][i])
  }

  /** The rows of a table that is given column by column. */
  function Rows<V>(columns: seq<seq<V>>, rows: nat): (r: seq<seq<V>>)
    requires Even(columns, rows)
    ensures |r| == rows && forall i :: 0 <= i < rows ==> r[i] == Row(columns, rows, i)
  {
    seq(rows, i requires 0 <= i < rows => Row(columns, rows, i))
  }

  function Slices<V>(columns: seq<seq<V>>, rows: nat, left: nat, right: nat): (r: seq<seq<V>>)
    requires Even(columns, rows) && left <= right <= rows
    ensures |r| == |columns| && Even(r, right - left)
    ensures forall c :: 0 <= c < |columns| ==> r[c] == columns[c][left..right]
  {
    seq(|columns|, c requires 0 <= c < |columns| => columns[c][left..right])
  }

  lemma SliceRows<V>(columns: seq<seq<V>>, rows: nat, left: nat, right: nat)
    requires Even(columns, rows) && left <= right <= rows
    ensures Rows(columns, rows)[..left] + Rows(Slices(columns, rows, left, right), right - left)
      == Rows(columns, rows)[..right]
  {
    var all, part := Rows(columns, rows), Rows(Slices(columns, rows, left, right), right - left);
    forall i | 0 <= i < right - left
      ensures part[i] == all[left + i]
    {
      assert Row(Slices(columns, rows, left, right), right - left, i) == Row(columns, rows, left + i);
    }
  }

  /** An executed update: one array per column, all of one length within the limit. */
  predicate GoodUpdate<V>(query: string, columns: nat, e: Executed<seq<V>>) {
    e.text == query && |e.args| == columns > 0 && 0 < |e.args[0]| <= MAX_ARRAY_LEN && Even(e.args, |e.args[0]|)
  }

  predicate GoodUpdates<V>(query: string, columns: nat, log: seq<Executed<seq<V>>>) {
    forall i :: 0 <= i < |log| ==> GoodUpdate(query, columns, log[i])
  }

  /** The rows that all statements update, in order. */
  function Updated<V>(query: string, columns: nat, log: seq<Executed<seq<V>>>): (r: seq<seq<V>>)
    requires GoodUpdates(query, columns, log)
  {
    if log == [] then []
    else
      var e := log[|log| - 1];
      Updated(query, columns, log[..|log| - 1]) + Rows(e.args, |e.args[0]|)
  }

  lemma UpdatedMore<V>(query: string, columns: nat, log: seq<Executed<seq<V>>>, e: Executed<seq<V>>)
    requires GoodUpdates(query, columns, log) && GoodUpdate(query, columns, e)
    ensures GoodUpdates(query, columns, log + [e])
    ensures Updated(query, columns, log + [e]) == Updated(query, columns, log) + Rows(e.args, |e.args[0]|)
  {
    hide Rows, GoodUpdate;
    assert (log + [e])[..|log|] == log;
  }

  lemma SlicesGood<V>(query: string, columns: seq<seq<V>>, rows: nat, left: nat, right: nat)
    requires columns != [] && Even(columns, rows) && left < right <= rows && right - left <= MAX_ARRAY_LEN
    ensures GoodUpdate(query, |columns|, Executed(query, Slices(columns, rows, left, right)))
    ensures |Slices(columns, rows, left, right)[0]| == right - left
  {
  }

  datatype UpdateResult = AllUpdated | TooFewColumns | WrongColumns | Ragged | UpdateFailed

  method SliceColumns<V>(columns: seq<seq<V>>, rows: nat, left: nat, right: nat) returns (args: seq<seq<V>>)
    requires Even(columns, rows) && left <= right <= rows
    ensures args == Slices(columns, rows, left, right)
  {
    args := [];
    for c := 0 to |columns|
      invariant |args| == c && forall k :: 0 <= k < c ==> args[k] == columns[k][left..right]
    {
      args := args + [columns[c][left..right]];
    }
  }

  method AllEven<V>(columns: seq<seq<V>>, rows: nat) returns (even: bool)
    ensures even == Even(columns, rows)
  {
    for c := 0 to |columns|
      invariant forall k :: 0 <= k < c ==> |columns[k]| == rows
    {
      if |columns[c]| != rows {
        return false;
      }
    }
    even := true;
  }

  /** Rows are left for slice `j`. */
  predicate SliceDue(rows: nat, j: nat) {
    j * MAX_ARRAY_LEN < rows
  }

  predicate SliceWorks(fate: nat -> Fate, attempts: nat, j: nat) {
    fate(attempts + j).Works?
  }

  /** `k` statements worked, each for a full slice of rows but perhaps the last; then either
      no rows were left, or the next statement failed. */
  predicate IsUpdateOutcome(fate: nat -> Fate, attempts: nat, rows: nat, ok: bool, k: nat) {
    && (forall j :: 0 <= j < k ==> SliceDue(rows, j) && SliceWorks(fate, attempts, j))
    && (if ok then !SliceDue(rows, k) else SliceDue(rows, k) && !SliceWorks(fate, attempts, k))
  }

  lemma UpdateOutcomeUnique(fate: nat -> Fate, attempts: nat, rows: nat, ok: bool, k: nat, ok': bool, k': nat)
    requires IsUpdateOutcome(fate, attempts, rows, ok, k) && IsUpdateOutcome(fate, attempts, rows, ok', k')
    ensures ok == ok' && k == k'
  {
    assert !(k < k') && !(k' < k);
  }

  /** The rows updated when `k` statements worked; an unread statement has taken effect. */
  function RowsUpdated(fate: nat -> Fate, attempts: nat, rows: nat, ok: bool, k: nat): nat {
    var slices := if !ok && fate(attempts + k).Unread? then k + 1 else k;
    if slices * MAX_ARRAY_LEN < rows then slices * MAX_ARRAY_LEN else rows
  }

  /** The loop over the slices of the columns. */
  method UpdateSlices<V>(db: Connection<seq<V>>, query: string, values: seq<seq<V>>, rows: nat)
    returns (ok: bool, ghost batch: seq<Executed<seq<V>>>, ghost k: nat)
    requires values != [] && Even(values, rows)
    modifies db
    ensures db.log == old(db.log) + batch && GoodUpdates(query, |values|, batch)
    ensures IsUpdateOutcome(db.fate, old(db.attempts), rows, ok, k)
    ensures Updated(query, |values|, batch) == Rows(values, rows)[..RowsUpdated(db.fate, old(db.attempts), rows, ok, k)]
  {
    hide Rows, Even, GoodUpdates, Updated;
    batch, k := [], 0;
    NoUpdates<V>(query, |values|);
    var left := 0;
    while left < rows
      invariant left == k * MAX_ARRAY_LEN && db.attempts == old(db.attempts) + k
      invariant db.log == old(db.log) + batch && GoodUpdates(query, |values|, batch)
      invariant Updated(query, |values|, batch) == Rows(values, rows)[..if left < rows then left else rows]
      invariant forall j :: 0 <= j < k ==> SliceDue(rows, j) && SliceWorks(db.fate, old(db.attempts), j)
      decreases rows - left
    {
      var right := if left + MAX_ARRAY_LEN > rows then rows else left + MAX_ARRAY_LEN;
      var args := SliceColumns(values, rows, left, right);
      ghost var e := Executed(query, args);
      ok := db.Exec(query, args);
      SliceRows(values, rows, left, right);
      SlicesGood(query, values, rows, left, right);
      UpdatedMore(query, |values|, batch, e);
      assert batch + [] == batch;
      batch := batch + if db.fate(old(db.attempts) + k).Refused? then [] else [e];
      assert db.log == old(db.log) + batch;
      if !ok {
        return;
      }
      k, left := k + 1, left + MAX_ARRAY_LEN;
    }
    ok := true;
  }

  lemma NoUpdates<V>(query: string, columns: nat)
    ensures GoodUpdates<V>(query, columns, []) && Updated<V>(query, columns, []) == []
  {
  }

  lemma UpdatedExactly(fate: nat -> Fate, attempts: nat, rows: nat, ok: bool, k: nat)
    requires IsUpdateOutcome(fate, attempts, rows, ok, k)
    ensures ok <==> forall j :: 0 <= j && SliceDue(rows, j) ==> SliceWorks(fate, attempts, j)
    ensures ok ==> RowsUpdated(fate, attempts, rows, ok, k) == rows
  {
    if ok {
      forall j | 0 <= j && SliceDue(rows, j)
        ensures SliceWorks(fate, attempts, j)
      {
        assert j < k;
      }
    }
  }

  /** `BulkUpdate`: on success each row is updated once and in order; otherwise the first
      statement that fails decides. */
  method BulkUpdate<V>(db: Connection<seq<V>>, query: string, columns: seq<string>, values: seq<seq<V>>)
    returns (r: UpdateResult, ghost batch: seq<Executed<seq<V>>>, ghost k: nat)
    modifies db
    ensures r == TooFewColumns <==> |columns| < 2
    ensures r == WrongColumns <==> |columns| >= 2 && |columns| != |values|
    ensures r == Ragged <==> |columns| >= 2 && |columns| == |values| && !Even(values, |values[0]|)
    ensures db.log == old(db.log) + batch && GoodUpdates(query, |columns|, batch)
    ensures r != AllUpdated && r != UpdateFailed ==> batch == []
    ensures r == AllUpdated || r == UpdateFailed ==>
      var rows := |values[0]|;
      && IsUpdateOutcome(db.fate, old(db.attempts), rows, r == AllUpdated, k)
      && Updated(query, |columns|, batch)
           == Rows(values, rows)[..RowsUpdated(db.fate, old(db.attempts), rows, r == AllUpdated, k)]
      && (r == AllUpdated <==> forall j :: 0 <= j && SliceDue(rows, j) ==> SliceWorks(db.fate, old(db.attempts), j))
    ensures r == AllUpdated ==> Updated(query, |columns|, batch) == Rows(values, |values[0]|)
  {
    hide Rows, GoodUpdates, Updated, IsUpdateOutcome, RowsUpdated;
    batch, k := [], 0;
    NoUpdates<V>(query, |columns|);
    assert db.log == old(db.log) + batch;
    if |columns| < 2 {
      return TooFewColumns, batch, k;
    }
    if |columns| != |values| {
      return WrongColumns, batch, k;
    }
    var rows := |values[0]|;
    var even := AllEven(values[1..], rows);
    assert Even(values[1..], rows) <==> Even(values, rows) by {
      assert values == [values[0]] + values[1..];
    }
    if !even {
      return Ragged, batch, k;
    }
    var ok;
    ok, batch, k := UpdateSlices(db, query, values, rows);
    UpdatedExactly(db.fate, old(db.attempts), rows, ok, k);
    r := if ok then AllUpdated else UpdateFailed;
    assert Rows(values, rows)[..rows] == Rows(values, rows);
  }
}
