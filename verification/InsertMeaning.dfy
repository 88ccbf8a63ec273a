/** The text that `buildInsertQuery` makes means what it should: read back, it has the rows asked
    for, with the parameters numbered through (internal/database/database.go). */
module InsertMeaning {
  import opened Basics
  import opened Decimals
  import opened InsertReader
  import opened InsertText

  // ------------------------------------------------------------- parameters

  lemma {:induction false} DigitsThen(digits: string, tail: string)
    requires AllDigits(digits) && (tail == "" || !IsDigit(tail[0]))
    ensures DigitsAhead(digits + tail) == |digits|
  {
    if digits != "" {
      assert (digits + tail)[1..] == digits[1..] + tail;
      DigitsThen(digits[1..], tail);
    } else {
      assert digits + tail == tail;
    }
  }

  /** A placeholder reads as its number. */
  lemma ReadPlaceholder(p: nat, tail: string)
    requires tail != "" && !IsDigit(tail[0])
    ensures ReadParameter(Placeholder(p) + tail) == Some((p, tail))
  {
    hide Decimal, Value, DigitsAhead;
    var s := Placeholder(p) + tail;
    DecimalDigits(p);
    ValueOfDecimal(p);
    assert s[1..] == Decimal(p) + tail;
    DigitsThen(Decimal(p), tail);
    var k := |Decimal(p)|;
    assert s[1..k + 1] == Decimal(p) && s[k + 1..] == tail;
  }

  // ------------------------------------------------------------------- rows

  function PlaceholderTexts(ps: seq<nat>): (r: seq<string>)
    ensures |r| == |ps| && forall i :: 0 <= i < |ps| ==> r[i] == Placeholder(ps[i])
  {
    seq(|ps|, i requires 0 <= i < |ps| => Placeholder(ps[i]))
  }

  lemma {:induction false} JoinFirst(parts: seq<string>)
    requires |parts| > 1
    ensures JoinComma(parts) == parts[0] + ", " + JoinComma(parts[1..])
  {
    var n := |parts| - 1;
    if n == 1 {
      assert parts[..1] == [parts[0]] && parts[1..] == [parts[1]];
    } else {
      JoinFirst(parts[..n]);
      assert parts[..n][1..] == parts[1..][..n - 1];
      assert JoinComma(parts[1..]) == JoinComma(parts[1..][..n - 1]) + ", " + parts[n];
    }
  }

  lemma JoinOne(part: string)
    ensures JoinComma([part]) == part
  {
  }

  lemma {:induction false} ReadPlaceholders(ps: seq<nat>, tail: string)
    requires ps != []
    ensures ReadRow(JoinComma(PlaceholderTexts(ps)) + ")" + tail) == Some((ps, tail))
    decreases |ps|
  {
    hide JoinComma, Placeholder, ReadParameter;
    var ts, s := PlaceholderTexts(ps), JoinComma(PlaceholderTexts(ps)) + ")" + tail;
    if |ps| == 1 {
      assert ts == [Placeholder(ps[0])];
      JoinOne(ts[0]);
      assert s == Placeholder(ps[0]) + (")" + tail);
      ReadPlaceholder(ps[0], ")" + tail);
      assert (")" + tail)[1..] == tail && ps == [ps[0]];
    } else {
      JoinFirst(ts);
      assert ts[1..] == PlaceholderTexts(ps[1..]);
      var more := JoinComma(PlaceholderTexts(ps[1..])) + ")" + tail;
      assert s == Placeholder(ps[0]) + (", " + more);
      ReadPlaceholder(ps[0], ", " + more);
      ReadPlaceholders(ps[1..], tail);
      assert (", " + more)[2..] == more && ps == [ps[0]] + ps[1..];
    }
  }

  lemma ReadRowText(r: nat, n: nat, tail: string)
    requires n > 0
    ensures "(" <= RowText(r, n) + tail
    ensures ReadRow((RowText(r, n) + tail)[1..]) == Some((RowNumbers(r, n), tail))
  {
    hide JoinComma, ReadRow, Placeholder;
    assert Placeholders(r, n, n) == PlaceholderTexts(RowNumbers(r, n));
    var s := RowText(r, n) + tail;
    assert s[1..] == JoinComma(PlaceholderTexts(RowNumbers(r, n))) + ")" + tail;
    ReadPlaceholders(RowNumbers(r, n), tail);
  }

  /** The parameters of rows `k`, `k+1` and so on. */
  function NumbersFrom(k: nat, rows: nat, n: nat): (r: seq<seq<nat>>)
    requires k <= rows
    ensures |r| == rows - k && forall i :: 0 <= i < |r| ==> r[i] == RowNumbers(k + i, n)
  {
    seq(rows - k, i requires 0 <= i < rows - k => RowNumbers(k + i, n))
  }

  lemma {:induction false} ReadRowTexts(k: nat, rows: nat, n: nat, tail: string)
    requires k < rows && n > 0 && !(", (" <= tail)
    ensures ReadRows(JoinComma(RowTexts(rows, n)[k..]) + tail) == Some((NumbersFrom(k, rows, n), tail))
    decreases rows - k
  {
    hide JoinComma, RowText, ReadRow;
    var ts := RowTexts(rows, n)[k..];
    if k + 1 == rows {
      assert ts == [RowText(k, n)];
      JoinOne(ts[0]);
      ReadRowText(k, n, tail);
      assert NumbersFrom(k, rows, n) == [RowNumbers(k, n)];
    } else {
      JoinFirst(ts);
      assert ts[1..] == RowTexts(rows, n)[k + 1..];
      var more := JoinComma(ts[1..]) + tail;
      assert JoinComma(ts) + tail == RowText(k, n) + (", " + more);
      ReadRowText(k, n, ", " + more);
      ReadRowTexts(k + 1, rows, n, tail);
      JoinBegins(rows, k + 1, n, tail);
      assert (", " + more)[2..] == more;
      assert NumbersFrom(k, rows, n) == [RowNumbers(k, n)] + NumbersFrom(k + 1, rows, n);
    }
  }

  lemma JoinBegins(rows: nat, k: nat, n: nat, tail: string)
    requires k < rows
    ensures "(" <= JoinComma(RowTexts(rows, n)[k..]) + tail
  {
    var ts := RowTexts(rows, n)[k..];
    if |ts| == 1 {
      assert ts == [RowText(k, n)];
    } else {
      JoinFirst(ts);
    }
  }

  lemma NoMoreRows(q: Insert)
    ensures !(", (" <= Tail(q)) && !("(" <= Tail(q))
  {
    var t := Tail(q);
    assert t == "" || t[0] == ' ';
    assert ", ("[0] == ',' && "("[0] == '(';
  }

  /** Whatever the names in it are: after its head, the text of a statement reads as the rows
      asked for, with as many parameters as there are columns, numbered through from 1. */
  lemma TextReads(q: Insert)
    requires q.columns != []
    ensures Head(q) <= Text(q)
    ensures var n := |q.columns|;
      exists rows :: ReadRows(Text(q)[|Head(q)|..]) == Some((rows, Tail(q))) && NumberedThrough(rows, q.rows, n)
  {
    hide Head, Tail, JoinComma, RowText;
    NoMoreRows(q);
    var n := |q.columns|;
    var values := JoinComma(RowTexts(q.rows, n));
    assert Text(q) == Head(q) + (values + Tail(q));
    assert Text(q)[|Head(q)|..] == values + Tail(q);
    if q.rows == 0 {
      JoinNone(n);
      assert "" + Tail(q) == Tail(q);
      assert NumberedThrough([], 0, n);
    } else {
      assert RowTexts(q.rows, n)[0..] == RowTexts(q.rows, n);
      ReadRowTexts(0, q.rows, n, Tail(q));
      assert NumberedThrough(NumbersFrom(0, q.rows, n), q.rows, n);
    }
  }

  /** So many rows of `n` parameters each, numbered 1, 2, 3 and so on from row to row. */
  predicate NumberedThrough(rows: seq<seq<int>>, count: nat, n: nat) {
    && |rows| == count
    && (forall r :: 0 <= r < count ==> |rows[r]| == n && forall c :: 0 <= c < n ==> rows[r][c] == r * n + c + 1)
  }

  // -------------------------------------------------------- whole statements

  /** A name that needs no quoting. */
  predicate Plain(name: string) {
    '(' !in name && ')' !in name && ',' !in name
  }

  lemma {:induction false} UntilFirst(a: string, c: char, b: string)
    requires c !in a
    ensures Until(a + [c] + b, c) == a
  {
    if a == "" {
      assert a + [c] + b == [c] + b;
    } else {
      assert (a + [c] + b)[1..] == a[1..] + [c] + b && a[0] in a;
      assert forall x :: x in a[1..] ==> x in a;
      UntilFirst(a[1..], c, b);
    }
  }

  lemma {:induction false} UntilNone(a: string, c: char)
    requires c !in a
    ensures Until(a, c) == a
  {
    if a != "" {
      assert a[0] in a && forall x :: x in a[1..] ==> x in a;
      UntilNone(a[1..], c);
    }
  }

  lemma ReadsOneName(name: string)
    requires ',' !in name
    ensures ReadNames(name) == [name]
  {
    hide Until;
    UntilNone(name, ',');
    assert name[|name|..] == "";
  }

  lemma ReadsFirstName(name: string, more: string)
    requires ',' !in name
    ensures ReadNames(name + ", " + more) == [name] + ReadNames(more)
  {
    hide Until;
    var s := name + ", " + more;
    assert s == name + [','] + (" " + more);
    UntilFirst(name, ',', " " + more);
    assert s[|name|..] == ", " + more;
    assert s[|name| + 2..] == more;
  }

  lemma {:induction false} NamesRead(names: seq<string>)
    requires names != [] && forall i :: 0 <= i < |names| ==> ',' !in names[i]
    ensures ReadNames(JoinComma(names)) == names
    decreases |names|
  {
    hide JoinComma, ReadNames;
    if |names| == 1 {
      assert names == [names[0]];
      JoinOne(names[0]);
      ReadsOneName(names[0]);
    } else {
      JoinFirst(names);
      ReadsFirstName(names[0], JoinComma(names[1..]));
      NamesRead(names[1..]);
      assert names == [names[0]] + names[1..];
    }
  }

  lemma {:induction false} JoinHasNo(names: seq<string>, c: char)
    requires c != ',' && c != ' ' && forall i :: 0 <= i < |names| ==> c !in names[i]
    ensures c !in JoinComma(names)
  {
    if |names| > 1 {
      JoinHasNo(names[..|names| - 1], c);
    }
  }

  lemma Regrouped(table: string, names: string, values: string)
    ensures "INSERT INTO " + table + "(" + names + ") VALUES" + values
      == "INSERT INTO " + (table + ['('] + (names + [')'] + (" VALUES" + values)))
  {
  }

  lemma AfterInto(t: string)
    ensures "INSERT INTO " <= "INSERT INTO " + t && ("INSERT INTO " + t)[12..] == t
  {
  }

  /** The parts of a statement are found where they end. */
  lemma PartsFound(table: string, names: string, values: string, text: string)
    requires '(' !in table && ')' !in names
    requires text == "INSERT INTO " + (table + ['('] + (names + [')'] + (" VALUES" + values)))
    ensures "INSERT INTO " <= text && Until(text[12..], '(') == table
    ensures var after := text[12 + |table|..];
      && "(" <= after && Until(after[1..], ')') == names
      && ") VALUES" <= after[1 + |names|..] && after[1 + |names|..][8..] == values
  {
    hide Until;
    var rest := names + [')'] + (" VALUES" + values);
    AfterInto(table + ['('] + rest);
    UntilFirst(table, '(', rest);
    AfterTable(table, rest, text);
    UntilFirst(names, ')', " VALUES" + values);
    AfterNames(names, values, text[12 + |table|..]);
  }

  lemma AfterTable(table: string, rest: string, text: string)
    requires text == "INSERT INTO " + (table + ['('] + rest)
    ensures var after := text[12 + |table|..];
      "(" <= after && after == ['('] + rest && after[1..] == rest
  {
  }

  lemma AfterNames(names: string, values: string, after: string)
    requires after == ['('] + (names + [')'] + (" VALUES" + values))
    ensures after[1 + |names|..] == ") VALUES" + values && after[1 + |names|..][8..] == values
  {
  }

  /** For names that need no quoting the whole statement reads as it was meant. */
  lemma StatementReads(q: Insert)
    requires q.columns != [] && Plain(q.table) && forall i :: 0 <= i < |q.columns| ==> Plain(q.columns[i])
    ensures var r := ReadStatement(Text(q));
      && r.Some? && r.value.table == q.table && r.value.columns == q.columns
      && NumberedThrough(r.value.rows, q.rows, |q.columns|)
      && r.value.rest == (if q.conflict == "" then "" else " " + q.conflict)
           + if q.returning == [] then "" else " RETURNING " + JoinComma(q.returning)
  {
    hide JoinComma, ReadRows, RowTexts, Until, ReadNames, NumberedThrough, Text;
    TextReads(q);
    var values := Text(q)[|Head(q)|..];
    var names := JoinComma(q.columns);
    assert Text(q) == Head(q) + values;
    JoinHasNo(q.columns, ')');
    Regrouped(q.table, names, values);
    PartsFound(q.table, names, values, Text(q));
    NamesRead(q.columns);
  }
}
