/** Dividing results into numbered pages (internal/frontend/paginate.go). */
module Paginate {
  import opened Basics
  import opened Decimals

  /** The text is a number: decimal digits after at most one sign. */
  predicate IsNumber(text: string) {
    text != "" && AllDigits(Unsigned(text)) && Unsigned(text) != ""
  }

  function Unsigned(text: string): string {
    if text != "" && (text[0] == '-' || text[0] == '+') then text[1..] else text
  }

  function NumberOf(text: string): int {
    if text != "" && text[0] == '-' then -Value(Unsigned(text)) else Value(Unsigned(text))
  }

  /** The value that `strconv.Atoi` returns, with or without an error: 0 for what is not a
      number, and the nearest machine integer for what is out of range. */
  function Atoi(text: string): (r: int)
    ensures Int64(r)
    ensures IsNumber(text) && Int64(NumberOf(text)) ==> r == NumberOf(text)
  {
    if !IsNumber(text) then 0 else Max(-TWO_63, Min(NumberOf(text), TWO_63 - 1))
  }

  /** The request's parameter, or the default if it is missing, malformed or not positive. A
      number that is too large is not an error: it counts as the largest integer. */
  function PositiveParam(text: string, dflt: int): (r: int)
    ensures IsNumber(text) && NumberOf(text) >= 1 ==> r == Min(NumberOf(text), TWO_63 - 1)
    ensures !IsNumber(text) || NumberOf(text) < 1 ==> r == dflt
  {
    var val := if text != "" then Atoi(text) else 0;
    if val < 1 then dflt else val
  }

  /** The page number that a link carries is the one that its request reads. */
  lemma LinkedPage(page: int, dflt: int)
    requires 1 <= page < TWO_63
    ensures PositiveParam(Decimal(page), dflt) == page
  {
    hide PositiveParam, Decimal, Value, AllDigits;
    DecimalDigits(page);
    ValueOfDecimal(page);
  }

  function NumPages(pageSize: int, totalCount: int): int
    requires pageSize >= 1 && totalCount >= 0
  {
    (totalCount + pageSize - 1) / pageSize
  }

  function Offset(page: int, limit: int): int {
    if page <= 1 then 0 else (page - 1) * limit
  }

  function Prev(page: int): int {
    if page <= 1 then 0 else page - 1
  }

  function Next(page: int, limit: int, totalCount: int): int
    requires limit >= 1 && totalCount >= 0
  {
    if page >= NumPages(limit, totalCount) then 0 else page + 1
  }

  // --------------------------------------------------------------- partition

  /** The results on a page: those from its offset, as many as fit. */
  predicate OnPage(i: int, page: int, limit: int, totalCount: int) {
    1 <= page && Offset(page, limit) <= i < Offset(page, limit) + limit && i < totalCount
  }

  lemma MulMono(a: int, b: int, n: int)
    requires a <= b && n >= 0
    ensures a * n <= b * n
  {
    assert 0 <= (b - a) * n;
    assert b * n == a * n + (b - a) * n;
  }

  lemma OffsetIs(page: int, limit: int)
    requires page >= 1
    ensures Offset(page, limit) == (page - 1) * limit
  {
  }

  /** The number of pages is the least that holds all results. */
  lemma NumPagesLeast(limit: int, totalCount: int)
    requires limit >= 1 && totalCount >= 0
    ensures var n := NumPages(limit, totalCount);
      && n >= 0 && totalCount <= n * limit && (n > 0 ==> (n - 1) * limit < totalCount)
      && (forall m :: 0 <= m && totalCount <= m * limit ==> n <= m)
  {
    var n := NumPages(limit, totalCount);
    var s := totalCount + limit - 1;
    assert s == n * limit + s % limit;
    assert (n - 1) * limit == n * limit - limit;
    forall m | 0 <= m && totalCount <= m * limit
      ensures n <= m
    {
      if m < n {
        MulMono(m, n - 1, limit);
      }
    }
    if n < 0 {
      MulMono(n, -1, limit);
    }
  }

  /** Every result is on exactly one page, and that page is among those counted. */
  lemma PagesPartition(limit: int, totalCount: int, i: int)
    requires limit >= 1 && 0 <= i < totalCount
    ensures var page := i / limit + 1;
      && 1 <= page <= NumPages(limit, totalCount) && OnPage(i, page, limit, totalCount)
      && forall p :: OnPage(i, p, limit, totalCount) ==> p == page
  {
    hide NumPages, Offset;
    var page := i / limit + 1;
    assert i == i / limit * limit + i % limit;
    OffsetIs(page, limit);
    NumPagesLeast(limit, totalCount);
    var n := NumPages(limit, totalCount);
    if n < page {
      MulMono(n, page - 1, limit);
    }
    forall p | OnPage(i, p, limit, totalCount)
      ensures p == page
    {
      OffsetIs(p, limit);
      assert (p - 1) * limit + limit == p * limit && (page - 1) * limit + limit == page * limit;
      if p < page {
        MulMono(p, page - 1, limit);
      } else if page < p {
        MulMono(page, p - 1, limit);
      }
    }
  }

  /** Each page that is counted holds something, and each but the last is full. */
  lemma PagesFull(limit: int, totalCount: int, page: int)
    requires limit >= 1 && totalCount >= 0 && 1 <= page <= NumPages(limit, totalCount)
    ensures OnPage(Offset(page, limit), page, limit, totalCount)
    ensures page < NumPages(limit, totalCount) ==>
      Offset(page, limit) + limit <= totalCount && Offset(page + 1, limit) == Offset(page, limit) + limit
  {
    hide NumPages, Offset;
    var n := NumPages(limit, totalCount);
    OffsetIs(page, limit);
    OffsetIs(page + 1, limit);
    NumPagesLeast(limit, totalCount);
    MulMono(page - 1, n - 1, limit);
    assert page * limit == (page - 1) * limit + limit;
    if page < n {
      MulMono(page, n - 1, limit);
    }
  }

  // --------------------------------------------------------------- following

  /** The page reached from page 1 after following the next link `k` times; 0 is no page. */
  function Follow(limit: int, totalCount: int, k: nat): int
    requires limit >= 1 && totalCount >= 0
  {
    if k == 0 then 1
    else
      var p := Follow(limit, totalCount, k - 1);
      if p == 0 then 0 else Next(p, limit, totalCount)
  }

  /** Following the links visits pages 1, 2 and so on to the last one, then ends. Page 1 is
      shown even if there are no results. */
  lemma {:induction false} FollowVisits(limit: int, totalCount: int, k: nat)
    requires limit >= 1 && totalCount >= 0
    ensures Follow(limit, totalCount, k) == if k == 0 || k < NumPages(limit, totalCount) then k + 1 else 0
  {
    hide NumPages;
    if k > 0 {
      FollowVisits(limit, totalCount, k - 1);
    }
  }

  lemma FirstPage(limit: int, totalCount: int)
    requires limit >= 1 && totalCount >= 1
    ensures NumPages(limit, totalCount) >= 1
  {
    hide NumPages;
    NumPagesLeast(limit, totalCount);
  }

  /** Going on and coming back. */
  lemma NextThenPrev(page: int, limit: int, totalCount: int)
    requires limit >= 1 && totalCount >= 0 && page >= 1
    ensures Next(page, limit, totalCount) != 0 ==> Prev(Next(page, limit, totalCount)) == page
    ensures page <= NumPages(limit, totalCount) && Prev(page) != 0 ==> Next(Prev(page), limit, totalCount) == page
  {
    hide NumPages;
  }

  // ------------------------------------------------------------------- links

  /** `pagesToLink`: a run of consecutive pages, as many as asked for if there are so many,
      with the current page in it, and in the middle where there is room. */
  method PagesToLink(page: int, numPages: int, numPagesToLink: int) returns (pages: seq<int>)
    requires numPages >= 0 && numPagesToLink >= 0
    ensures |pages| == Min(numPagesToLink, numPages)
    ensures forall i :: 0 <= i < |pages| ==> pages[i] == pages[0] + i && 1 <= pages[i] <= numPages
    ensures numPagesToLink >= 1 && 1 <= page <= numPages ==> page in pages
    ensures var start := page - numPagesToLink / 2;
      numPagesToLink >= 1 && 1 <= start && start + numPagesToLink - 1 <= numPages ==>
      |pages| == numPagesToLink && pages[numPagesToLink / 2] == page
    ensures page > numPages && pages != [] ==> pages[|pages| - 1] == numPages
    ensures page < 1 && pages != [] ==> pages[0] == 1
  {
    pages := [];
    var start := page - numPagesToLink / 2;
    if numPages - start < numPagesToLink {
      start := numPages - numPagesToLink + 1;
    }
    if start < 1 {
      start := 1;
    }
    var i := start;
    while i < start + numPagesToLink && i <= numPages
      invariant start <= i <= Max(start, Min(start + numPagesToLink, numPages + 1))
      invariant |pages| == i - start && forall j :: 0 <= j < |pages| ==> pages[j] == start + j
    {
      pages := pages + [i];
      i := i + 1;
    }
    assert numPagesToLink >= 1 && 1 <= page <= numPages ==> pages[page - start] == page;
  }

  // -------------------------------------------------------- machine integers

  const TWO_63 := 0x8000_0000_0000_0000

  predicate Int64(x: int) {
    -TWO_63 <= x < TWO_63
  }

  /** The result of an operation in 64 bits. */
  function Wrap64(x: int): (r: int)
    ensures Int64(r) && (Int64(x) ==> r == x)
  {
    (x + TWO_63) % (2 * TWO_63) - TWO_63
  }

  function TruncDiv(a: int, b: int): int
    requires b > 0
  {
    if a >= 0 then a / b else -((-a) / b)
  }

  function NumPages64(pageSize: int, totalCount: int): int
    requires pageSize >= 1
  {
    TruncDiv(Wrap64(Wrap64(totalCount + pageSize) - 1), pageSize)
  }

  /** In 64 bits the number of pages is right exactly when the rounded-up count fits. */
  lemma NumPagesFits(pageSize: int, totalCount: int)
    requires 1 <= pageSize < TWO_63 && 0 <= totalCount < TWO_63
    ensures NumPages64(pageSize, totalCount) == NumPages(pageSize, totalCount) <==> totalCount + pageSize - 1 < TWO_63
  {
    hide Wrap64, TruncDiv, NumPages;
    var s := totalCount + pageSize - 1;
    WrapAgain(s + 1);
    if s < TWO_63 {
      DivisionIs(pageSize, totalCount);
    } else {
      FirstPage(pageSize, totalCount);
      WrapNegative(s);
      TruncNegative(Wrap64(s), pageSize);
    }
  }

  lemma DivisionIs(pageSize: int, totalCount: int)
    requires pageSize >= 1 && totalCount >= 0
    ensures TruncDiv(totalCount + pageSize - 1, pageSize) == NumPages(pageSize, totalCount)
  {
  }

  lemma TruncNegative(a: int, b: int)
    requires a < 0 < b
    ensures TruncDiv(a, b) <= 0
  {
  }

  lemma WrapAgain(s: int)
    requires 0 <= s < 2 * TWO_63
    ensures Wrap64(Wrap64(s) - 1) == Wrap64(s - 1)
  {
    if s >= TWO_63 {
      assert (s + TWO_63) % (2 * TWO_63) == s - TWO_63;
    }
    if s > TWO_63 {
      assert (s - 1 + TWO_63) % (2 * TWO_63) == s - 1 - TWO_63;
    }
  }

  lemma WrapNegative(s: int)
    requires TWO_63 <= s < 2 * TWO_63
    ensures Wrap64(s) < 0
  {
    assert (s + TWO_63) % (2 * TWO_63) == s - TWO_63;
  }
}
