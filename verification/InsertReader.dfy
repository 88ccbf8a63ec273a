/** Reading an insert statement back from its text, as a database would: the table, the columns,
    and which parameter each place of each row stands for. */
module InsertReader {
  import opened Basics
  import opened Decimals

  predicate IsDigit(c: char) {
    '0' <= c <= '9'
  }

  /** How many digits the text begins with. */
  function DigitsAhead(s: string): (n: nat)
    ensures n <= |s| && (forall i :: 0 <= i < n ==> IsDigit(s[i])) && (n < |s| ==> !IsDigit(s[n]))
  {
    if s == "" || !IsDigit(s[0]) then 0 else 1 + DigitsAhead(s[1..])
  }

  /** A parameter: a dollar sign and its number. */
  function ReadParameter(s: string): (r: Option<(int, string)>)
    ensures r.Some? ==> |r.value.1| < |s|
  {
    if !("$" <= s) then None
    else
      var k := DigitsAhead(s[1..]);
      if k == 0 then None else Some((Value(s[1..k + 1]), s[k + 1..]))
  }

  /** The parameters of one row, up to its closing parenthesis. */
  function ReadRow(s: string): (r: Option<(seq<int>, string)>)
    ensures r.Some? ==> |r.value.1| < |s|
    decreases |s|
  {
    match ReadParameter(s)
    case None => None
    case Some((p, rest)) =>
      if ")" <= rest then Some(([p], rest[1..]))
      else if !(", " <= rest) then None
      else
        match ReadRow(rest[2..])
        case None => None
        case Some((ps, rest')) => Some(([p] + ps, rest'))
  }

  /** Rows in parentheses, with commas between them, and what follows. */
  function ReadRows(s: string): Option<(seq<seq<int>>, string)>
    decreases |s|
  {
    if !("(" <= s) then Some(([], s))
    else
      match ReadRow(s[1..])
      case None => None
      case Some((row, rest)) =>
        if !(", (" <= rest) then Some(([row], rest))
        else
          match ReadRows(rest[2..])
          case None => None
          case Some((rows, rest')) => Some(([row] + rows, rest'))
  }

  /** The part of the text before the first `c`, or all of it. */
  function Until(s: string, c: char): (r: string)
    ensures r <= s && c !in r && (|r| < |s| ==> s[|r|] == c)
  {
    if s == "" || s[0] == c then "" else [s[0]] + Until(s[1..], c)
  }

  /** Names with a comma and a space between them. */
  function ReadNames(s: string): seq<string>
    decreases |s|
  {
    var name := Until(s, ',');
    if ", " <= s[|name|..] then [name] + ReadNames(s[|name| + 2..]) else [s]
  }

  /** What a statement says: the table, its columns, the parameters of each row, and the rest. */
  datatype Statement = Statement(table: string, columns: seq<string>, rows: seq<seq<int>>, rest: string)

  function ReadStatement(text: string): Option<Statement> {
    if !("INSERT INTO " <= text) then None
    else
      var table := Until(text[12..], '(');
      var after := text[12 + |table|..];
      if !("(" <= after) then None
      else
        var columns := Until(after[1..], ')');
        var values := after[1 + |columns|..];
        if !(") VALUES" <= values) then None
        else
          match ReadRows(values[8..])
          case None => None
          case Some((rows, rest)) => Some(Statement(table, ReadNames(columns), rows, rest))
  }
}
