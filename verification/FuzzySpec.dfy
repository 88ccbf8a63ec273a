/** What a fuzzy match is (internal/fuzzy/fuzzy.go): embeddings of a pattern in an input,
    the right-most one, the shortest one from its start, and the score.

    Runes are integers. Inputs and patterns here are already lower-cased and cut to the
    255 runes that the matcher keeps. */
module FuzzySpec {

  type Rune = int

  /** What a rune of the input is: the bits `segmentStart`, `wordStart` and `separator`. */
  datatype Role = Role(segmentStart: bool, wordStart: bool, separator: bool)

  const DOT: Rune := 46
  const SLASH: Rune := 47

  predicate IsSeparator(r: Rune) {
    r == DOT || r == SLASH
  }

  /** The input loop's lower-casing, with its shortcut for ASCII. */
  function Lower(toLower: Rune -> Rune, r: Rune): Rune {
    if r <= 127 then (if 65 <= r <= 90 then r + 32 else r) else toLower(r)
  }

  function RoleAt(toLower: Rune -> Rune, input: seq<Rune>, i: nat): Role
    requires i < |input|
  {
    var first := i == 0 || IsSeparator(input[i - 1]);
    Role(first, first || Lower(toLower, input[i]) != input[i], IsSeparator(input[i]))
  }

  // -------------------------------------------------------------- embeddings

  /** `e` lists, in increasing order, positions of `s` that spell `p`. */
  predicate IsEmbedding(e: seq<int>, p: seq<Rune>, s: seq<Rune>): (b: bool)
    ensures b ==> |e| == |p|
  {
    && |e| == |p|
    && (forall j :: 0 <= j < |e| ==> 0 <= e[j] < |s| && s[e[j]] == p[j])
    && (forall j :: 0 < j < |e| ==> e[j - 1] < e[j])
  }

  ghost predicate Matches(p: seq<Rune>, s: seq<Rune>) {
    exists e :: IsEmbedding(e, p, s)
  }

  /** `i` is the greatest position at which an embedding can begin. */
  ghost predicate IsRightMost(i: int, p: seq<Rune>, s: seq<Rune>) {
    && p != []
    && (exists e :: IsEmbedding(e, p, s) && e[0] == i)
    && (forall e :: IsEmbedding(e, p, s) ==> e[0] <= i)
  }

  /** `f` begins at `i` and is at every pattern position as early as any embedding from `i`. */
  ghost predicate IsEarliestFrom(f: seq<int>, i: int, p: seq<Rune>, s: seq<Rune>) {
    && p != [] && IsEmbedding(f, p, s) && f[0] == i
    && forall e, j :: IsEmbedding(e, p, s) && e[0] >= i && 0 <= j < |p| ==> f[j] <= e[j]
  }

  lemma RightMostUnique(i: int, i': int, p: seq<Rune>, s: seq<Rune>)
    requires IsRightMost(i, p, s) && IsRightMost(i', p, s)
    ensures i == i'
  {
  }

  lemma EarliestUnique(f: seq<int>, f': seq<int>, i: int, p: seq<Rune>, s: seq<Rune>)
    requires IsEarliestFrom(f, i, p, s) && IsEarliestFrom(f', i, p, s)
    ensures f == f'
  {
    forall j | 0 <= j < |p|
      ensures f[j] == f'[j]
    {
      assert f[j] <= f'[j] && f'[j] <= f[j];
    }
  }

  // ------------------------------------------------------------------- score

  const SEGMENT_STREAK: real := 1.0
  const WORD_STREAK: real := 0.8
  const NO_STREAK: real := 0.6
  const PER_SEGMENT: real := 0.2
  const MAX_SEGMENTS: nat := 3

  /** Separators at or after position `i`, counted from the right up to three. */
  function Segments(roles: seq<Role>, i: nat): (n: nat)
    ensures n <= MAX_SEGMENTS
    decreases |roles| - i
  {
    if i >= |roles| then 0
    else
      var n := Segments(roles, i + 1);
      if roles[i].separator && n < MAX_SEGMENTS then n + 1 else n
  }

  /** What a rune is worth by its own role. */
  function RoleBonus(r: Role): real {
    if r.segmentStart then SEGMENT_STREAK else if r.wordStart then WORD_STREAK else NO_STREAK
  }

  function Max(x: real, y: real): real {
    if x < y then y else x
  }

  function Min(x: real, y: real): real {
    if x < y then x else y
  }

  /** The bonus of the `j`-th matched rune: its own, or that of the unbroken run it ends. */
  function Streak(roles: seq<Role>, f: seq<int>, j: nat): (b: real)
    requires j < |f| && forall k :: 0 <= k < |f| ==> 0 <= f[k] < |roles|
    ensures b == SEGMENT_STREAK || b == WORD_STREAK || b == NO_STREAK
  {
    var own := RoleBonus(roles[f[j]]);
    if j > 0 && f[j - 1] + 1 == f[j] then Max(own, Streak(roles, f, j - 1)) else own
  }

  /** The last rune's bonus is capped by what follows it: a whole segment or word is worth
      more than the beginning of one. */
  function EndCap(roles: seq<Role>, last: nat): real
    requires last < |roles|
  {
    if last + 1 == |roles| then SEGMENT_STREAK else RoleBonus(roles[last + 1])
  }

  function Weighted(bonus: real, segments: nat): real {
    bonus * (1.0 - segments as real * PER_SEGMENT)
  }

  function CharScore(roles: seq<Role>, f: seq<int>, j: nat): (x: real)
    requires j < |f| && forall k :: 0 <= k < |f| ==> 0 <= f[k] < |roles|
    ensures 0.24 <= x <= 1.0
  {
    var b := Streak(roles, f, j);
    var bonus := if j + 1 == |f| then Min(b, EndCap(roles, f[j])) else b;
    Weighted(bonus, Segments(roles, f[j]))
  }

  function Total(roles: seq<Role>, f: seq<int>, n: nat): (x: real)
    requires n <= |f| && forall k :: 0 <= k < |f| ==> 0 <= f[k] < |roles|
    ensures 0.24 * n as real <= x <= n as real
  {
    if n == 0 then 0.0 else Total(roles, f, n - 1) + CharScore(roles, f, n - 1)
  }

  lemma AverageBounds(total: real, n: real)
    requires n > 0.0 && 0.24 * n <= total <= n
    ensures 0.24 <= total / n <= 1.0
  {
    var x := total / n;
    assert x * n == total;
    assert (x - 0.24) * n >= 0.0 && (1.0 - x) * n >= 0.0;
  }

  /** The score of the match at positions `f`: the average over the matched runes. */
  function Score(roles: seq<Role>, f: seq<int>): (x: real)
    requires f != [] && forall k :: 0 <= k < |f| ==> 0 <= f[k] < |roles|
    ensures 0.24 <= x <= 1.0
  {
    AverageBounds(Total(roles, f, |f|), |f| as real);
    Total(roles, f, |f|) / |f| as real
  }

  // ------------------------------------------------- building the score up

  predicate InRange(f: seq<int>, n: nat) {
    forall k :: 0 <= k < |f| ==> 0 <= f[k] < n
  }

  /** The sum over the first `n` matched runes, none of them treated as the last. */
  function OpenTotal(roles: seq<Role>, f: seq<int>, n: nat): real
    requires n <= |f| && InRange(f, |roles|)
  {
    if n == 0 then 0.0
    else OpenTotal(roles, f, n - 1) + Weighted(Streak(roles, f, n - 1), Segments(roles, f[n - 1]))
  }

  lemma {:induction false} StreakExtends(roles: seq<Role>, f: seq<int>, x: int, j: nat)
    requires j < |f| && InRange(f + [x], |roles|) && InRange(f, |roles|)
    ensures Streak(roles, f + [x], j) == Streak(roles, f, j)
  {
    if j > 0 {
      StreakExtends(roles, f, x, j - 1);
    }
  }

  lemma {:induction false} OpenTotalExtends(roles: seq<Role>, f: seq<int>, x: int, n: nat)
    requires n <= |f| && InRange(f + [x], |roles|) && InRange(f, |roles|)
    ensures OpenTotal(roles, f + [x], n) == OpenTotal(roles, f, n)
  {
    hide Weighted;
    if n > 0 {
      StreakExtends(roles, f, x, n - 1);
      OpenTotalExtends(roles, f, x, n - 1);
    }
  }

  lemma {:induction false} TotalIsOpen(roles: seq<Role>, f: seq<int>, n: nat)
    requires n < |f| && InRange(f, |roles|)
    ensures Total(roles, f, n) == OpenTotal(roles, f, n)
  {
    hide Weighted;
    if n > 0 {
      TotalIsOpen(roles, f, n - 1);
    }
  }
}
