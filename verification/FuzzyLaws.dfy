/** The rules for the score that the comments of internal/fuzzy/fuzzy.go give, and laws that
    follow from them, for the result of a match. */
module FuzzyLaws {
  import opened FuzzySpec
  import opened FuzzyMatcher

  // ---------------------------------------------------------------- the rules

  predicate StartsSegment(s: seq<Rune>, i: int)
    requires 0 <= i < |s|
  {
    i == 0 || IsSeparator(s[i - 1])
  }

  predicate StartsWord(toLower: Rune -> Rune, s: seq<Rune>, i: int)
    requires 0 <= i < |s|
  {
    StartsSegment(s, i) || Lower(toLower, s[i]) != s[i]
  }

  /** Matched runes `k` to `j` stand side by side. */
  predicate Unbroken(f: seq<int>, k: int, j: int) {
    0 <= k <= j < |f| && forall m :: k < m <= j ==> f[m] == f[m - 1] + 1
  }

  /** Rule 1: a rune that starts a segment is worth 1, one that starts a word 0.8, any other 0.6,
      and this carries over to runes that follow immediately. */
  ghost function Carried(toLower: Rune -> Rune, s: seq<Rune>, f: seq<int>, j: nat): real
    requires j < |f| && InRange(f, |s|)
  {
    if exists k :: Unbroken(f, k, j) && StartsSegment(s, f[k]) then 1.0
    else if exists k :: Unbroken(f, k, j) && StartsWord(toLower, s, f[k]) then 0.8
    else 0.6
  }

  /** Rule 2: the last rune is worth no more than this, by what comes after it. */
  function Following(toLower: Rune -> Rune, s: seq<Rune>, i: int): real
    requires 0 <= i < |s|
  {
    if i + 1 == |s| || StartsSegment(s, i + 1) then 1.0 else if StartsWord(toLower, s, i + 1) then 0.8 else 0.6
  }

  /** The separators from position `i` on. */
  ghost function Behind(s: seq<Rune>, i: int): set<int> {
    set j | i <= j < |s| && 0 <= j && IsSeparator(s[j])
  }

  /** Rule 3: each segment from the right takes away 0.2, up to three of them. */
  ghost function Weight(s: seq<Rune>, i: int): real {
    match |Behind(s, i)|
    case 0 => 1.0
    case 1 => 0.8
    case 2 => 0.6
    case _ => 0.4
  }

  ghost function Bonus(toLower: Rune -> Rune, s: seq<Rune>, f: seq<int>, j: nat): real
    requires j < |f| && InRange(f, |s|)
  {
    var c := Carried(toLower, s, f, j);
    if j + 1 == |f| && Following(toLower, s, f[j]) < c then Following(toLower, s, f[j]) else c
  }

  ghost function RuneScore(toLower: Rune -> Rune, s: seq<Rune>, f: seq<int>, j: nat): real
    requires j < |f| && InRange(f, |s|)
  {
    Bonus(toLower, s, f, j) * Weight(s, f[j])
  }

  ghost function RuneScores(toLower: Rune -> Rune, s: seq<Rune>, f: seq<int>, n: nat): real
    requires n <= |f| && InRange(f, |s|)
  {
    if n == 0 then 0.0 else RuneScores(toLower, s, f, n - 1) + RuneScore(toLower, s, f, n - 1)
  }

  // ------------------------------------------------------- the score obeys them

  lemma BehindStep(s: seq<Rune>, i: nat)
    requires i < |s|
    ensures |Behind(s, i)| == |Behind(s, i + 1)| + if IsSeparator(s[i]) then 1 else 0
  {
    hide IsSeparator;
    if IsSeparator(s[i]) {
      assert Behind(s, i) == Behind(s, i + 1) + {i};
    } else {
      assert Behind(s, i) == Behind(s, i + 1);
    }
  }

  lemma {:induction false} SegmentsBehind(toLower: Rune -> Rune, s: seq<Rune>, i: nat)
    requires i <= |s|
    ensures Segments(Roles(toLower, s), i) == if |Behind(s, i)| < 3 then |Behind(s, i)| else 3
    decreases |s| - i
  {
    hide IsSeparator, Lower;
    if i == |s| {
      assert Behind(s, i) == {};
    } else {
      hide Behind;
      SegmentsBehind(toLower, s, i + 1);
      BehindStep(s, i);
      SegmentsStep(Roles(toLower, s), i);
    }
  }

  lemma WeightIs(toLower: Rune -> Rune, s: seq<Rune>, i: nat, bonus: real)
    requires i < |s|
    ensures Weighted(bonus, Segments(Roles(toLower, s), i)) == bonus * Weight(s, i)
  {
    hide Segments, Behind;
    SegmentsBehind(toLower, s, i);
  }

  lemma OwnBonus(toLower: Rune -> Rune, s: seq<Rune>, i: nat)
    requires i < |s|
    ensures RoleBonus(RoleAt(toLower, s, i))
      == if StartsSegment(s, i) then 1.0 else if StartsWord(toLower, s, i) then 0.8 else 0.6
  {
  }

  /** What a rune carries: its own worth, or that of the rune before it if they stand side by
      side. */
  lemma CarriedStep(toLower: Rune -> Rune, s: seq<Rune>, f: seq<int>, j: nat)
    requires j < |f| && InRange(f, |s|)
    ensures var own := if StartsSegment(s, f[j]) then 1.0 else if StartsWord(toLower, s, f[j]) then 0.8 else 0.6;
      Carried(toLower, s, f, j)
      == if j > 0 && f[j - 1] + 1 == f[j] && own < Carried(toLower, s, f, j - 1) then Carried(toLower, s, f, j - 1)
         else own
  {
    hide StartsSegment, StartsWord, Unbroken;
    SegmentIsWord(toLower, s);
    RunsEndAt(f, j);
    if j > 0 && f[j - 1] + 1 == f[j] {
      RunsEndAt(f, j - 1);
      RunsGoOn(f, j - 1, j);
    } else {
      RunsBegin(f, j);
    }
  }

  lemma RunsEndAt(f: seq<int>, j: nat)
    requires j < |f|
    ensures Unbroken(f, j, j)
    ensures forall k :: Unbroken(f, k, j) ==> 0 <= k <= j
  {
  }

  lemma RunsGoOn(f: seq<int>, i: nat, j: nat)
    requires i + 1 == j < |f| && f[i] + 1 == f[j]
    ensures forall k :: Unbroken(f, k, j) <==> k == j || Unbroken(f, k, i)
  {
  }

  lemma RunsBegin(f: seq<int>, j: nat)
    requires j < |f| && (j > 0 ==> f[j - 1] + 1 != f[j])
    ensures forall k :: Unbroken(f, k, j) <==> k == j
  {
  }

  lemma SegmentIsWord(toLower: Rune -> Rune, s: seq<Rune>)
    ensures forall i :: 0 <= i < |s| && StartsSegment(s, i) ==> StartsWord(toLower, s, i)
  {
  }

  lemma {:induction false} StreakCarried(toLower: Rune -> Rune, s: seq<Rune>, f: seq<int>, j: nat)
    requires j < |f| && InRange(f, |s|)
    ensures Streak(Roles(toLower, s), f, j) == Carried(toLower, s, f, j)
  {
    hide StartsSegment, StartsWord, RoleBonus, RoleAt, Carried;
    CarriedStep(toLower, s, f, j);
    OwnBonus(toLower, s, f[j]);
    if j > 0 {
      StreakCarried(toLower, s, f, j - 1);
    }
  }

  lemma CapIs(toLower: Rune -> Rune, s: seq<Rune>, i: nat)
    requires i < |s|
    ensures EndCap(Roles(toLower, s), i) == Following(toLower, s, i)
  {
    hide StartsSegment, StartsWord, RoleBonus, RoleAt;
    if i + 1 < |s| {
      OwnBonus(toLower, s, i + 1);
    }
  }

  lemma CharScoreIs(toLower: Rune -> Rune, s: seq<Rune>, f: seq<int>, j: nat)
    requires j < |f| && InRange(f, |s|)
    ensures CharScore(Roles(toLower, s), f, j) == RuneScore(toLower, s, f, j)
  {
    hide Streak, Carried, EndCap, Following, Weighted, Segments, Weight, RoleAt;
    StreakCarried(toLower, s, f, j);
    CapIs(toLower, s, f[j]);
    var c := Carried(toLower, s, f, j);
    WeightIs(toLower, s, f[j], c);
    WeightIs(toLower, s, f[j], Following(toLower, s, f[j]));
  }

  lemma {:induction false} TotalIs(toLower: Rune -> Rune, s: seq<Rune>, f: seq<int>, n: nat)
    requires n <= |f| && InRange(f, |s|)
    ensures Total(Roles(toLower, s), f, n) == RuneScores(toLower, s, f, n)
  {
    hide CharScore, RuneScore, RoleAt;
    if n > 0 {
      TotalIs(toLower, s, f, n - 1);
      CharScoreIs(toLower, s, f, n - 1);
    }
  }

  /** The positions that a match takes, and its score by the rules. */
  ghost predicate ObeysRules(toLower: Rune -> Rune, p: seq<Rune>, s: seq<Rune>, start: int, score: real, f: seq<int>) {
    && p != [] && IsEarliestFrom(f, start, p, LowerAll(toLower, s)) && InRange(f, |s|)
    && score * |p| as real == RuneScores(toLower, s, f, |f|)
  }

  /** The score of a match is the average of what the rules give its runes. */
  lemma ScoreObeysRules(toLower: Rune -> Rune, p: seq<Rune>, input: seq<Rune>, start: int, score: real)
    returns (f: seq<int>)
    requires IsMatchResult(toLower, p, input, start, score) && start >= 0
    ensures ObeysRules(toLower, p, Cut(input), start, score, f)
  {
    hide IsRightMost, IsEarliestFrom, Total, RuneScores, Matches, RoleAt;
    var s := Cut(input);
    var low, rs := LowerAll(toLower, s), Roles(toLower, s);
    f :| ScoredBy(f, start, p, low, rs, score);
    TotalIs(toLower, s, f, |f|);
    EarliestLength(f, start, p, low);
    Averaged(Total(rs, f, |f|), |f| as real);
  }

  lemma EarliestLength(f: seq<int>, start: int, p: seq<Rune>, s: seq<Rune>)
    requires IsEarliestFrom(f, start, p, s)
    ensures |f| == |p| > 0
  {
  }

  lemma Averaged(total: real, n: real)
    requires n > 0.0
    ensures total / n * n == total
  {
  }

  // ---------------------------------------------------------------- whole segments

  lemma {:induction false} Spread(f: seq<int>, p: seq<Rune>, s: seq<Rune>, j: nat)
    requires IsEmbedding(f, p, s) && j < |f|
    ensures f[0] + j <= f[j] <= |s| - |f| + j
    decreases j
  {
    if j > 0 {
      Spread(f, p, s, j - 1);
    }
    SpreadUp(f, p, s, j);
  }

  lemma {:induction false} SpreadUp(f: seq<int>, p: seq<Rune>, s: seq<Rune>, j: nat)
    requires IsEmbedding(f, p, s) && j < |f|
    ensures f[j] <= |s| - |f| + j
    decreases |f| - j
  {
    if j + 1 < |f| {
      SpreadUp(f, p, s, j + 1);
    }
  }

  predicate EndsIn(p: seq<Rune>, s: seq<Rune>) {
    p != [] && |p| <= |s| && forall j :: 0 <= j < |p| ==> s[|s| - |p| + j] == p[j]
  }

  /** A pattern that ends the input, rune by rune, is matched there. */
  lemma AtTheEnd(p: seq<Rune>, s: seq<Rune>, start: int, f: seq<int>)
    requires EndsIn(p, s)
    requires IsRightMost(start, p, s) && IsEarliestFrom(f, start, p, s)
    ensures start == |s| - |p| && |f| == |p| && forall j :: 0 <= j < |p| ==> f[j] == start + j
  {
    var n := |s| - |p|;
    var e := seq(|p|, j requires 0 <= j < |p| => n + j);
    assert IsEmbedding(e, p, s);
    Spread(f, p, s, 0);
    assert e[0] <= start;
    forall j | 0 <= j < |p|
      ensures f[j] == start + j
    {
      Spread(f, p, s, j);
      assert f[j] <= e[j];
    }
  }

  lemma FullRune(toLower: Rune -> Rune, s: seq<Rune>, f: seq<int>, j: nat, start: nat)
    requires j < |f| && start + |f| == |s| && forall k :: 0 <= k < |f| ==> f[k] == start + k
    requires StartsSegment(s, start) && forall i :: start <= i < |s| ==> !IsSeparator(s[i])
    ensures RuneScore(toLower, s, f, j) == 1.0
  {
    assert Unbroken(f, 0, j) && StartsSegment(s, f[0]);
    assert Behind(s, f[j]) == {};
  }

  lemma {:induction false} FullRunes(toLower: Rune -> Rune, s: seq<Rune>, f: seq<int>, n: nat, start: nat)
    requires n <= |f| && start + |f| == |s| && forall k :: 0 <= k < |f| ==> f[k] == start + k
    requires start < |s| && StartsSegment(s, start) && forall i :: start <= i < |s| ==> !IsSeparator(s[i])
    ensures RuneScores(toLower, s, f, n) == n as real
  {
    hide RuneScore, StartsSegment;
    if n > 0 {
      FullRunes(toLower, s, f, n - 1, start);
      FullRune(toLower, s, f, n - 1, start);
    }
  }

  /** A pattern that is the whole last segment matches there and scores exactly 1. */
  lemma WholeLastSegment(toLower: Rune -> Rune, before: seq<Rune>, segment: seq<Rune>, start: int, score: real)
    requires segment != [] && (before == [] || IsSeparator(before[|before| - 1])) && |before + segment| <= 255
    requires forall i :: 0 <= i < |segment| ==> !IsSeparator(segment[i])
    requires IsMatchResult(toLower, LowerAll(toLower, segment), before + segment, start, score)
    ensures start == |before| && score == 1.0
  {
    hide *;
    var p, s := LowerAll(toLower, segment), before + segment;
    var low := LowerAll(toLower, s);
    EndsWith(toLower, before, segment);
    Occurs(p, low);
    ScoreRange(toLower, p, s, start, score);
    MatchParts(toLower, p, s, start, score);
    var f := ScoreObeysRules(toLower, p, s, start, score);
    FullAtEnd(toLower, p, s, start, score, f);
  }

  lemma FullAtEnd(toLower: Rune -> Rune, p: seq<Rune>, s: seq<Rune>, start: int, score: real, f: seq<int>)
    requires ObeysRules(toLower, p, s, start, score, f) && IsRightMost(start, p, LowerAll(toLower, s))
    requires EndsIn(p, LowerAll(toLower, s)) && 0 <= |s| - |p| < |s| && StartsSegment(s, |s| - |p|)
    requires forall i :: |s| - |p| <= i < |s| ==> !IsSeparator(s[i])
    ensures start == |s| - |p| && score == 1.0
  {
    hide *;
    RuleParts(toLower, p, s, start, score, f);
    LowerLength(toLower, s);
    AtTheEnd(p, LowerAll(toLower, s), start, f);
    FullRunes(toLower, s, f, |f|, start);
    WholeAverage(score, |p|, RuneScores(toLower, s, f, |f|));
  }

  lemma LowerLength(toLower: Rune -> Rune, s: seq<Rune>)
    ensures |LowerAll(toLower, s)| == |s|
  {
  }

  lemma WholeAverage(x: real, n: nat, total: real)
    requires n > 0 && x * n as real == total && total == n as real
    ensures x == 1.0
  {
    OnlyOne(x, n as real);
  }

  lemma OnlyOne(x: real, y: real)
    requires y > 0.0 && x * y == y
    ensures x == 1.0
  {
    assert x == x * y / y;
    assert y / y == 1.0;
  }

  lemma EndsWith(toLower: Rune -> Rune, before: seq<Rune>, segment: seq<Rune>)
    requires segment != [] && (before == [] || IsSeparator(before[|before| - 1])) && |before + segment| <= 255
    requires forall i :: 0 <= i < |segment| ==> !IsSeparator(segment[i])
    ensures var p, s := LowerAll(toLower, segment), before + segment;
      var low := LowerAll(toLower, s);
      && Cut(s) == s && p != [] && |p| == |segment| && |low| == |s| == |before| + |segment|
      && EndsIn(p, low)
      && StartsSegment(s, |before|) && (forall i :: |before| <= i < |s| ==> !IsSeparator(s[i]))
  {
    hide Lower, IsSeparator;
  }

  lemma MatchParts(toLower: Rune -> Rune, p: seq<Rune>, s: seq<Rune>, start: int, score: real)
    requires IsMatchResult(toLower, p, s, start, score) && start >= 0
    ensures p != [] && IsRightMost(start, p, LowerAll(toLower, Cut(s)))
  {
    hide IsRightMost, HasScore, Matches;
  }

  lemma RuleParts(toLower: Rune -> Rune, p: seq<Rune>, s: seq<Rune>, start: int, score: real, f: seq<int>)
    requires ObeysRules(toLower, p, s, start, score, f)
    ensures InRange(f, |s|) && |f| == |p| > 0 && IsEarliestFrom(f, start, p, LowerAll(toLower, s)) && f[0] == start
    ensures score * |p| as real == RuneScores(toLower, s, f, |f|)
  {
    hide RuneScores, LowerAll;
  }

  lemma Occurs(p: seq<Rune>, s: seq<Rune>)
    requires EndsIn(p, s)
    ensures Matches(p, s)
  {
    var e := seq(|p|, j requires 0 <= j < |p| => |s| - |p| + j);
    assert IsEmbedding(e, p, s);
  }

  /** Lower-casing is that of Unicode, as far as ASCII goes. */
  ghost predicate LowersAscii(toLower: Rune -> Rune) {
    forall r :: r <= 127 ==> toLower(r) == if 65 <= r <= 90 then r + 32 else r
  }

  /** Case does not matter: a text typed as the query is looked for in lower case. */
  lemma TypedAsWritten(toLower: Rune -> Rune, text: seq<Rune>, p: seq<Rune>)
    requires LowersAscii(toLower) && |p| == |text| && forall i :: 0 <= i < |text| ==> p[i] == toLower(text[i])
    ensures p == LowerAll(toLower, text)
  {
  }

  // ------------------------------------------------------------------ one rune

  /** A pattern of one rune: its last occurrence is found, and the score is what the rune starts
      or what follows it, whichever is less, times the weight of its segment. */
  lemma OneRune(toLower: Rune -> Rune, r: Rune, s: seq<Rune>, start: int, score: real)
    requires |s| <= 255 && IsMatchResult(toLower, [r], s, start, score) && start >= 0
    ensures start < |s| && Lower(toLower, s[start]) == r
    ensures forall i :: start < i < |s| ==> Lower(toLower, s[i]) != r
    ensures var own := if StartsSegment(s, start) then 1.0 else if StartsWord(toLower, s, start) then 0.8 else 0.6;
      var next := if start + 1 == |s| || StartsSegment(s, start + 1) then 1.0
        else if StartsWord(toLower, s, start + 1) then 0.8 else 0.6;
      score == (if next < own then next else own) * Weight(s, start)
  {
    hide *;
    FitsWhole(s);
    MatchParts(toLower, [r], s, start, score);
    LastOccurrence(toLower, r, s, start);
    var f := ScoreObeysRules(toLower, [r], s, start, score);
    RuleParts(toLower, [r], s, start, score, f);
    assert f == [start];
    OneRuneScore(toLower, s, start);
  }

  lemma FitsWhole(s: seq<Rune>)
    requires |s| <= 255
    ensures Cut(s) == s
  {
  }

  lemma LastOccurrence(toLower: Rune -> Rune, r: Rune, s: seq<Rune>, start: int)
    requires IsRightMost(start, [r], LowerAll(toLower, s))
    ensures 0 <= start < |s| && Lower(toLower, s[start]) == r
    ensures forall i :: start < i < |s| ==> Lower(toLower, s[i]) != r
  {
    hide Lower;
    var low := LowerAll(toLower, s);
    forall i | start < i < |s|
      ensures low[i] != r
    {
      assert low[i] == r ==> IsEmbedding([i], [r], low);
    }
  }

  lemma OneRuneScore(toLower: Rune -> Rune, s: seq<Rune>, start: nat)
    requires start < |s|
    ensures InRange([start], |s|)
    ensures var own := if StartsSegment(s, start) then 1.0 else if StartsWord(toLower, s, start) then 0.8 else 0.6;
      var next := if start + 1 == |s| || StartsSegment(s, start + 1) then 1.0
        else if StartsWord(toLower, s, start + 1) then 0.8 else 0.6;
      RuneScores(toLower, s, [start], 1) == (if next < own then next else own) * Weight(s, start)
  {
    hide StartsSegment, StartsWord, Weight, Carried;
    CarriedStep(toLower, s, [start], 0);
    assert RuneScores(toLower, s, [start], 1)
        == RuneScores(toLower, s, [start], 0) + RuneScore(toLower, s, [start], 0);
  }

  /** A whole segment in front of a separator scores less than the beginning of a segment that
      goes on: the rune after it is the separator, which starts nothing. */
  lemma InnerSegment(toLower: Rune -> Rune, start: int, score: real, start': int, score': real)
    requires IsMatchResult(toLower, [97], [97, SLASH, 98], start, score)
    requires IsMatchResult(toLower, [97], [97, 98], start', score')
    ensures start == 0 == start' && score == 0.48 && score' == 0.6
  {
    hide IsRightMost;
    var s, t := [97, SLASH, 98], [97, 98];
    assert IsEmbedding([0], [97], LowerAll(toLower, s)) && IsEmbedding([0], [97], LowerAll(toLower, t));
    ScoreRange(toLower, [97], s, start, score);
    ScoreRange(toLower, [97], t, start', score');
    OneRune(toLower, 97, s, start, score);
    OneRune(toLower, 97, t, start', score');
    assert Behind(s, 0) == {1} && Behind(t, 0) == {};
  }

  // ------------------------------------------------------- separators behind

  ghost function Bonuses(toLower: Rune -> Rune, s: seq<Rune>, f: seq<int>, n: nat): real
    requires n <= |f| && InRange(f, |s|)
  {
    if n == 0 then 0.0 else Bonuses(toLower, s, f, n - 1) + Bonus(toLower, s, f, n - 1)
  }

  /** No match reaches the end of `a`, nor anything behind it. */
  predicate EndsBefore(toLower: Rune -> Rune, p: seq<Rune>, a: seq<Rune>, b: seq<Rune>) {
    && p != [] && a != [] && Lower(toLower, a[|a| - 1]) != p[|p| - 1]
    && forall i :: 0 <= i < |b| ==> Lower(toLower, b[i]) != p[|p| - 1]
  }

  lemma {:induction false} Increasing(e: seq<int>, p: seq<Rune>, s: seq<Rune>, i: nat, j: nat)
    requires IsEmbedding(e, p, s) && i <= j < |e|
    ensures e[i] <= e[j]
    decreases j
  {
    if i < j {
      Increasing(e, p, s, i, j - 1);
    }
  }

  /** What is behind `a` does not change the embeddings. */
  lemma SameEmbeddings(toLower: Rune -> Rune, p: seq<Rune>, a: seq<Rune>, b: seq<Rune>, e: seq<int>)
    requires EndsBefore(toLower, p, a, b)
    ensures IsEmbedding(e, p, LowerAll(toLower, a + b)) <==> IsEmbedding(e, p, LowerAll(toLower, a))
    ensures IsEmbedding(e, p, LowerAll(toLower, a)) ==> forall j :: 0 <= j < |e| ==> e[j] + 1 < |a|
  {
    hide Lower;
    var low, whole := LowerAll(toLower, a), LowerAll(toLower, a + b);
    assert low <= whole;
    if IsEmbedding(e, p, whole) {
      var last := e[|e| - 1];
      assert whole[last] == p[|p| - 1];
      forall j | 0 <= j < |e|
        ensures e[j] + 1 < |a|
      {
        Increasing(e, p, whole, j, |e| - 1);
      }
    }
    if IsEmbedding(e, p, low) {
      assert IsEmbedding(e, p, whole);
    }
  }

  lemma SameRightMost(toLower: Rune -> Rune, p: seq<Rune>, a: seq<Rune>, b: seq<Rune>, start: int)
    requires EndsBefore(toLower, p, a, b)
    ensures IsRightMost(start, p, LowerAll(toLower, a + b)) <==> IsRightMost(start, p, LowerAll(toLower, a))
    ensures Matches(p, LowerAll(toLower, a + b)) <==> Matches(p, LowerAll(toLower, a))
  {
    hide IsEmbedding, EndsBefore;
    forall e
      ensures IsEmbedding(e, p, LowerAll(toLower, a + b)) <==> IsEmbedding(e, p, LowerAll(toLower, a))
    {
      SameEmbeddings(toLower, p, a, b, e);
    }
  }

  lemma SameEarliest(toLower: Rune -> Rune, p: seq<Rune>, a: seq<Rune>, b: seq<Rune>, start: int, f: seq<int>)
    requires EndsBefore(toLower, p, a, b) && IsEarliestFrom(f, start, p, LowerAll(toLower, a + b))
    ensures IsEarliestFrom(f, start, p, LowerAll(toLower, a)) && forall j :: 0 <= j < |f| ==>
      0 <= f[j] && f[j] + 1 < |a|
  {
    hide EndsBefore, LowerAll;
    forall e
      ensures IsEmbedding(e, p, LowerAll(toLower, a + b)) <==> IsEmbedding(e, p, LowerAll(toLower, a))
    {
      SameEmbeddings(toLower, p, a, b, e);
    }
    SameEmbeddings(toLower, p, a, b, f);
  }

  lemma SameBonus(toLower: Rune -> Rune, a: seq<Rune>, b: seq<Rune>, f: seq<int>, j: nat)
    requires j < |f| && forall k :: 0 <= k < |f| ==> 0 <= f[k] && f[k] + 1 < |a|
    ensures Bonus(toLower, a + b, f, j) == Bonus(toLower, a, f, j)
  {
    assert forall i :: 0 <= i < |a| ==> StartsSegment(a + b, i) == StartsSegment(a, i);
    assert forall i :: 0 <= i < |a| ==> StartsWord(toLower, a + b, i) == StartsWord(toLower, a, i);
  }

  lemma WeightBehind(a: seq<Rune>, b: seq<Rune>, i: nat)
    requires i <= |a| && forall k :: i <= k < |a| ==> !IsSeparator(a[k])
    ensures Weight(a + b, i) == Weight(b, 0)
  {
    var n := |a|;
    var x, y := Behind(a + b, i), Behind(b, 0);
    assert forall j :: j in y ==> (a + b)[j + n] == b[j];
    assert forall j :: j in x ==> j >= n && (a + b)[j] == b[j - n];
    Shifted(x, y, n);
  }

  lemma Some<T>(s: set<T>) returns (x: T)
    requires s != {}
    ensures x in s
  {
    x :| x in s;
  }

  lemma {:induction false} Shifted(x: set<int>, y: set<int>, n: int)
    requires forall j :: j in y ==> j + n in x
    requires forall j :: j in x ==> j - n in y
    ensures |x| == |y|
  {
    if x != {} {
      var j := Some(x);
      assert j - n in y;
      Shifted(x - {j}, y - {j - n}, n);
    } else {
      assert forall j :: j in y ==> j + n in x;
      assert y == {};
    }
  }

  lemma {:induction false} SameWeight(toLower: Rune -> Rune, a: seq<Rune>, b: seq<Rune>, f: seq<int>, n: nat)
    requires n <= |f| && f != [] && (forall k :: 0 <= k < |f| ==> f[0] <= f[k] && 0 <= f[k] && f[k] + 1 < |a|)
    requires forall k :: f[0] <= k < |a| ==> !IsSeparator(a[k])
    ensures InRange(f, |a + b|) && InRange(f, |a|)
    ensures RuneScores(toLower, a + b, f, n) == Bonuses(toLower, a, f, n) * Weight(b, 0)
  {
    hide Bonus, Weight;
    if n > 0 {
      SameWeight(toLower, a, b, f, n - 1);
      SameBonus(toLower, a, b, f, n - 1);
      WeightBehind(a, b, f[n - 1]);
    }
  }

  /** The score of a match in the last segment of `a`, with `b` behind it, is some bonus, the same
      for all `b`, times the weight for the separators in `b`. */
  lemma WeighedBySeparators(toLower: Rune -> Rune, p: seq<Rune>, a: seq<Rune>, b: seq<Rune>, b': seq<Rune>,
                            start: int, score: real, start': int, score': real)
    requires |a + b| <= 255 && |a + b'| <= 255
    requires EndsBefore(toLower, p, a, b) && EndsBefore(toLower, p, a, b')
    requires IsMatchResult(toLower, p, a + b, start, score) && IsMatchResult(toLower, p, a + b', start', score')
    requires start >= 0 && forall k :: start <= k < |a| ==> !IsSeparator(a[k])
    ensures start' == start && score * Weight(b', 0) == score' * Weight(b, 0)
  {
    hide *;
    FitsWhole(a + b);
    FitsWhole(a + b');
    var low := LowerAll(toLower, a);
    MatchParts(toLower, p, a + b, start, score);
    SameRightMost(toLower, p, a, b, start);
    SameRightMost(toLower, p, a, b', start);
    FoundBoth(toLower, p, a + b', start, start', score');
    var f := ScoreObeysRules(toLower, p, a + b, start, score);
    var f' := ScoreObeysRules(toLower, p, a + b', start', score');
    RuleParts(toLower, p, a + b, start, score, f);
    RuleParts(toLower, p, a + b', start', score', f');
    SameEarliest(toLower, p, a, b, start, f);
    SameEarliest(toLower, p, a, b', start, f');
    EarliestUnique(f, f', start, p, low);
    StartsFirst(f, start, p, low);
    SameWeight(toLower, a, b, f, |f|);
    SameWeight(toLower, a, b', f, |f|);
    Proportional(score, score', |p| as real, Bonuses(toLower, a, f, |f|), Weight(b, 0), Weight(b', 0));
  }

  lemma FoundBoth(toLower: Rune -> Rune, p: seq<Rune>, s: seq<Rune>, start: int, start': int, score': real)
    requires IsRightMost(start, p, LowerAll(toLower, Cut(s))) && IsMatchResult(toLower, p, s, start', score')
    ensures start' == start >= 0
  {
    hide HasScore;
    var low := LowerAll(toLower, Cut(s));
    var e :| IsEmbedding(e, p, low) && e[0] == start;
    RightMostUnique(start, start', p, low);
  }

  lemma StartsFirst(f: seq<int>, start: int, p: seq<Rune>, s: seq<Rune>)
    requires IsEarliestFrom(f, start, p, s)
    ensures f != [] && f[0] == start && forall j :: 0 <= j < |f| ==> f[0] <= f[j]
  {
    forall j | 0 <= j < |f|
      ensures f[0] <= f[j]
    {
      Increasing(f, p, s, 0, j);
    }
  }

  lemma Proportional(x: real, y: real, n: real, bonus: real, w: real, w': real)
    requires n > 0.0 && x * n == bonus * w && y * n == bonus * w'
    ensures x * w' == y * w
  {
    assert (x * w' - y * w) * n == x * n * w' - y * n * w;
    assert bonus * w * w' - bonus * w' * w == 0.0;
  }
}
