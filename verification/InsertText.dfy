/** The text of an insert statement (internal/database/database.go). */
module InsertText {
  import opened Decimals

  /** `strings.Join(parts, ", ")`. */
  function JoinComma(parts: seq<string>): string {
    if parts == [] then ""
    else if |parts| == 1 then parts[0]
    else JoinComma(parts[..|parts| - 1]) + ", " + parts[|parts| - 1]
  }

  function Placeholder(i: nat): string {
    "$" + Decimal(i)
  }

  /** The parameter numbers of row `r`, in a table of `n` columns. */
  function RowNumbers(r: nat, n: nat): (numbers: seq<nat>)
    ensures |numbers| == n && forall c :: 0 <= c < n ==> numbers[c] == r * n + c + 1
  {
    seq(n, c requires 0 <= c < n => r * n + c + 1)
  }

  function Placeholders(r: nat, n: nat, k: nat): (ps: seq<string>)
    requires k <= n
    ensures |ps| == k && forall c :: 0 <= c < k ==> ps[c] == Placeholder(RowNumbers(r, n)[c])
  {
    seq(k, c requires 0 <= c < k => Placeholder(RowNumbers(r, n)[c]))
  }

  function RowText(r: nat, n: nat): string {
    "(" + JoinComma(Placeholders(r, n, n)) + ")"
  }

  function RowTexts(rows: nat, n: nat): (ts: seq<string>)
    ensures |ts| == rows && forall r :: 0 <= r < rows ==> ts[r] == RowText(r, n)
  {
    seq(rows, r requires 0 <= r < rows => RowText(r, n))
  }

  /** What a statement says: so many rows of so many columns. */
  datatype Insert = Insert(table: string, columns: seq<string>, rows: nat, conflict: string, returning: seq<string>)

  function Head(q: Insert): string {
    "INSERT INTO " + q.table + "(" + JoinComma(q.columns) + ") VALUES"
  }

  function Tail(q: Insert): string {
    (if q.conflict != "" then " " + q.conflict else "")
    + if q.returning != [] then " RETURNING " + JoinComma(q.returning) else ""
  }

  function Text(q: Insert): string {
    Head(q) + JoinComma(RowTexts(q.rows, |q.columns|)) + Tail(q)
  }

  // ------------------------------------------------------------- uniqueness

  lemma JoinMore(parts: seq<string>, p: string)
    ensures JoinComma(parts + [p]) == (if parts == [] then "" else JoinComma(parts) + ", ") + p
  {
    assert (parts + [p])[..|parts|] == parts;
  }

  lemma {:induction false} RowsLonger(a: nat, b: nat, n: nat)
    requires a < b
    ensures |JoinComma(RowTexts(a, n))| < |JoinComma(RowTexts(b, n))|
    decreases b
  {
    hide RowText, JoinComma;
    assert RowTexts(b, n) == RowTexts(b - 1, n) + [RowText(b - 1, n)];
    JoinMore(RowTexts(b - 1, n), RowText(b - 1, n));
    assert |RowText(b - 1, n)| >= 2 by { RowTextLong(b - 1, n); }
    if a < b - 1 {
      RowsLonger(a, b - 1, n);
    }
    if b == 1 {
      assert JoinComma(RowTexts(0, n)) == "" by { JoinNone(n); }
    }
  }

  lemma RowTextLong(r: nat, n: nat)
    ensures |RowText(r, n)| >= 2
  {
  }

  lemma JoinNone(n: nat)
    ensures JoinComma(RowTexts(0, n)) == ""
  {
  }

  lemma SameFrame(q: Insert, k: nat)
    ensures Head(q) == Head(q.(rows := k)) && Tail(q) == Tail(q.(rows := k))
  {
  }

  /** The text of a statement tells how many rows it has. */
  lemma TextTellsRows(q: Insert, k: nat)
    requires Text(q) == Text(q.(rows := k))
    ensures q.rows == k
  {
    hide Head, Tail, JoinComma, RowTexts;
    SameFrame(q, k);
    if q.rows < k {
      RowsLonger(q.rows, k, |q.columns|);
    } else if k < q.rows {
      RowsLonger(k, q.rows, |q.columns|);
    }
  }

  // ---------------------------------------------------------------- the loop

  lemma RemainderOf(q: nat, n: nat, r: nat)
    requires 0 < r <= n
    ensures (q * n + r) % n == 0 <==> r == n
  {
    if r == n {
      assert (q + 1) * n == q * n + r;
      MultipleMod(q + 1, n);
    } else {
      ModUnique(q * n + r, n, q, r);
    }
  }

  lemma MultipleMod(q: nat, n: nat)
    requires n > 0
    ensures q * n % n == 0 && q * n / n == q
  {
    ModUnique(q * n, n, q, 0);
  }

  lemma ModUnique(x: nat, n: nat, q: nat, r: nat)
    requires n > 0 && x == q * n + r && r < n
    ensures x / n == q && x % n == r
  {
    var q', r' := x / n, x % n;
    assert x == q' * n + r';
    MulStep(q, q', n);
    MulStep(q', q, n);
  }

  lemma {:induction false} MulStep(a: nat, b: nat, n: nat)
    ensures a < b ==> a * n + n <= b * n
    decreases b
  {
    if a < b {
      MulStep(a, b - 1, n);
      assert b * n == (b - 1) * n + n;
    }
  }

  /** The text built so far, with the separator that follows each full row. */
  function Written(q: nat, n: nat): string {
    if q == 0 then "" else JoinComma(RowTexts(q, n)) + ", "
  }

  lemma WrittenMore(q: nat, n: nat)
    ensures Written(q, n) + RowText(q, n) == JoinComma(RowTexts(q + 1, n))
  {
    hide RowText, JoinComma;
    assert RowTexts(q + 1, n) == RowTexts(q, n) + [RowText(q, n)];
    JoinMore(RowTexts(q, n), RowText(q, n));
  }

  lemma NextPlaceholder(q: nat, n: nat, k: nat)
    requires k < n
    ensures Placeholders(q, n, k + 1) == Placeholders(q, n, k) + [Placeholder(q * n + k + 1)]
  {
  }

  lemma NoneWritten(n: nat)
    ensures Written(0, n) == "" == JoinComma(RowTexts(0, n)) && Placeholders(0, n, 0) == []
  {
  }

  lemma NextRow(q: nat, n: nat, placeholders: seq<string>)
    requires placeholders == Placeholders(q, n, n)
    ensures Written(q, n) + ("(" + JoinComma(placeholders) + ")") == JoinComma(RowTexts(q + 1, n))
    ensures Written(q + 1, n) == JoinComma(RowTexts(q + 1, n)) + ", "
    ensures Placeholders(q + 1, n, 0) == []
  {
    hide JoinComma, RowTexts;
    WrittenMore(q, n);
  }

  /** The rows of a query, with or without a final separator. */
  method BuildRows(n: nat, nvalues: nat, head: string) returns (b: string)
    requires n > 0 && nvalues % n == 0
    ensures b == head + JoinComma(RowTexts(nvalues / n, n))
  {
    hide *;
    b := head;
    var placeholders: seq<string> := [];
    ghost var q := 0;
    NoneWritten(n);
    var i := 1;
    assert head + "" == head;
    while i <= nvalues
      invariant 1 <= i <= nvalues + 1 && |placeholders| < n && i == q * n + |placeholders| + 1
      invariant placeholders == Placeholders(q, n, |placeholders|)
      invariant i <= nvalues ==> b == head + Written(q, n)
      invariant i == nvalues + 1 ==> b == head + JoinComma(RowTexts(q, n))
    {
      NextPlaceholder(q, n, |placeholders|);
      placeholders := placeholders + [Placeholder(i)];
      RemainderOf(q, n, |placeholders|);
      if i % n == 0 {
        NextRow(q, n, placeholders);
        b := b + ("(" + JoinComma(placeholders) + ")");
        assert (q + 1) * n == q * n + n;
        placeholders, q := [], q + 1;
        if i < nvalues {
          b := b + ", ";
        }
      }
      i := i + 1;
    }
    RemainderOf(q, n, n);
    if placeholders == [] {
      MultipleMod(q, n);
    } else {
      ModUnique(nvalues, n, q, |placeholders|);
    }
  }

  /** `buildInsertQuery`: parameters are numbered through, and each group of as many as there
      are columns is a row. */
  method BuildInsertQuery(table: string, columns: seq<string>, returning: seq<string>, nvalues: nat,
                          conflictAction: string)
    returns (b: string)
    requires columns != [] && nvalues % |columns| == 0
    ensures b == Text(Insert(table, columns, nvalues / |columns|, conflictAction, returning))
  {
    hide JoinComma, RowTexts;
    b := "INSERT INTO " + table;
    b := b + "(" + JoinComma(columns) + ") VALUES";
    b := BuildRows(|columns|, nvalues, b);
    if conflictAction != "" {
      b := b + " " + conflictAction;
    }
    if |returning| > 0 {
      b := b + " RETURNING " + JoinComma(returning);
    }
  }
}
