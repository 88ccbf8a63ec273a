/** The matcher itself: 256-slot buffers that every call overwrites and reuses, indexed by
    bytes. */
module FuzzyMatcher {
  import opened FuzzySpec

  newtype Uint8 = x: int | 0 <= x < 256

  /** Go's `x - 1` on uint8, which wraps at zero. */
  function Dec(x: Uint8): Uint8 {
    if x == 0 then 255 else x - 1
  }

  function Flatten(chunks: seq<seq<Rune>>): seq<Rune> {
    if chunks == [] then [] else Flatten(chunks[..|chunks| - 1]) + chunks[|chunks| - 1]
  }

  /** The part of the input, or of the pattern, that fits the buffers. */
  function Cut(s: seq<Rune>): (r: seq<Rune>)
    ensures r <= s && |r| == if |s| <= 255 then |s| else 255
  {
    if |s| <= 255 then s else s[..255]
  }

  function LowerAll(toLower: Rune -> Rune, s: seq<Rune>): (r: seq<Rune>)
    ensures |r| == |s| && forall i :: 0 <= i < |s| ==> r[i] == Lower(toLower, s[i])
  {
    seq(|s|, i requires 0 <= i < |s| => Lower(toLower, s[i]))
  }

  function Roles(toLower: Rune -> Rune, s: seq<Rune>): (r: seq<Role>)
    ensures |r| == |s| && forall i :: 0 <= i < |s| ==> r[i] == RoleAt(toLower, s, i)
  {
    seq(|s|, i requires 0 <= i < |s| => RoleAt(toLower, s, i))
  }

  /** `f` is the shortest match from `start`, and `score` is its score. */
  ghost predicate ScoredBy(f: seq<int>, start: int, p: seq<Rune>, s: seq<Rune>, rs: seq<Role>, score: real) {
    && IsEarliestFrom(f, start, p, s) && InRange(f, |rs|) && |s| == |rs|
    && score == Score(rs, f)
  }

  ghost predicate HasScore(start: int, p: seq<Rune>, s: seq<Rune>, rs: seq<Role>, score: real) {
    exists f :: ScoredBy(f, start, p, s, rs, score)
  }

  /** The documented result of `Match` for a pattern and the concatenated chunks. */
  ghost predicate IsMatchResult(toLower: Rune -> Rune, p: seq<Rune>, input: seq<Rune>, start: int, score: real) {
    var s := Cut(input);
    var low := LowerAll(toLower, s);
    if p != [] && Matches(p, low) then
      IsRightMost(start, p, low) && HasScore(start, p, low, Roles(toLower, s), score)
    else start == -1 && score == 0.0
  }

  class SymbolMatcher {
    const toLower: Rune -> Rune
    const pattern: array<Rune>
    var patternLen: Uint8
    const inputBuffer: array<Rune>
    const roles: array<Role>
    const segments: array<Uint8>

    ghost predicate Valid()
      reads this, pattern
    {
      && pattern.Length == 256 && inputBuffer.Length == 256 && roles.Length == 256 && segments.Length == 256
      && pattern != inputBuffer && patternLen <= 255
    }

    /** The lower-cased pattern that the matcher looks for. */
    ghost function Pattern(): (p: seq<Rune>)
      requires Valid()
      reads this, pattern
      ensures |p| == patternLen as int
    {
      pattern[..patternLen as int]
    }

    /** `byteLen` is the length of the pattern in bytes, at least one per rune. */
    constructor (toLower: Rune -> Rune, text: seq<Rune>, byteLen: nat)
      requires |text| <= byteLen
      ensures Valid() && this.toLower == toLower
      ensures fresh(pattern) && fresh(inputBuffer) && fresh(roles) && fresh(segments)
      ensures |Pattern()| == |Cut(text)| && forall i :: 0 <= i < |Cut(text)| ==> Pattern()[i] == toLower(text[i])
      ensures forall i :: 0 <= i < 256 ==>
        inputBuffer[i] == 0 && roles[i] == Role(false, false, false) && segments[i] == 0
    {
      this.toLower := toLower;
      pattern := new Rune[256](_ => 0);
      patternLen := 0;
      inputBuffer := new Rune[256](_ => 0);
      roles := new Role[256](_ => Role(false, false, false));
      segments := new Uint8[256](_ => 0);
      new;
      for k := 0 to |text|
        invariant Valid() && patternLen as int == k < 255
        invariant forall i :: 0 <= i < k ==> pattern[i] == toLower(text[i])
        invariant forall i :: 0 <= i < 256 ==>
          inputBuffer[i] == 0 && roles[i] == Role(false, false, false) && segments[i] == 0
      {
        pattern[patternLen] := toLower(text[k]);
        patternLen := patternLen + 1;
        if patternLen == 255 || patternLen as int == byteLen {
          return;
        }
      }
    }

    /** The lower-cased rune and the modifiers that become its role. */
    method Classify(r: Rune, mods: Role) returns (l: Rune, modifiers: Role)
      requires !mods.separator
      ensures l == Lower(toLower, r)
      ensures modifiers == Role(mods.segmentStart, mods.wordStart || l != r, IsSeparator(r))
    {
      modifiers := mods;
      if r == DOT || r == SLASH {
        modifiers := modifiers.(separator := true);
      }
      l := r;
      if r <= 127 {
        if 65 <= r <= 90 {
          l := r + 32;
        }
      } else {
        l := toLower(r);
      }
      if l != r {
        modifiers := modifiers.(wordStart := true);
      }
    }

    /** One turn of the input loop: writes rune `r` after the runes `sofar`. */
    method Put(r: Rune, n: Uint8, mods: Role, ghost sofar: seq<Rune>) returns (inputLen: Uint8, modifiers: Role)
      requires Valid() && n < 255 && Filled(sofar, n as int) && mods == NextModifiers(sofar)
      modifies inputBuffer, roles
      ensures inputLen == n + 1 && Filled(sofar + [r], inputLen as int) && modifiers == NextModifiers(sofar + [r])
      ensures forall k :: inputLen as int <= k < 256 ==>
        inputBuffer[k] == old(inputBuffer[k]) && roles[k] == old(roles[k])
    {
      hide Lower, IsSeparator;
      var l;
      l, modifiers := Classify(r, mods);
      inputBuffer[n] := l;
      roles[n] := modifiers;
      inputLen := n + 1;
      if roles[inputLen - 1].separator {
        modifiers := Role(true, true, false);
      } else {
        modifiers := Role(false, false, false);
      }
      FilledStep(sofar, r, inputLen as int);
    }

    /** The runes of one chunk, until the buffer is full (`break input`). */
    method FillChunk(chunk: seq<Rune>, n: Uint8, mods: Role, ghost before: seq<Rune>)
      returns (inputLen: Uint8, modifiers: Role)
      requires Valid() && n < 255 && Filled(before, n as int) && mods == NextModifiers(before)
      modifies inputBuffer, roles
      ensures inputLen as int == |Cut(before + chunk)| && Filled(Cut(before + chunk), inputLen as int)
      ensures inputLen < 255 ==> modifiers == NextModifiers(before + chunk)
      ensures forall k :: inputLen as int <= k < 256 ==>
        inputBuffer[k] == old(inputBuffer[k]) && roles[k] == old(roles[k])
    {
      hide RoleAt, NextModifiers;
      inputLen, modifiers := n, mods;
      assert before + chunk[..0] == before;
      for i := 0 to |chunk|
        invariant |before + chunk[..i]| == inputLen as int < 255
        invariant Filled(before + chunk[..i], inputLen as int)
        invariant modifiers == NextModifiers(before + chunk[..i])
        invariant forall k :: inputLen as int <= k < 256 ==>
          inputBuffer[k] == old(inputBuffer[k]) && roles[k] == old(roles[k])
      {
        ghost var sofar := before + chunk[..i];
        assert before + chunk[..i + 1] == sofar + [chunk[i]];
        inputLen, modifiers := Put(chunk[i], inputLen, modifiers, sofar);
        if inputLen == 255 {
          assert sofar + [chunk[i]] <= before + chunk;
          assert Cut(before + chunk) == sofar + [chunk[i]];
          return;
        }
      }
      assert chunk[..|chunk|] == chunk;
    }

    /** The first phase: the lower-cased runes and their roles. Slots past the input keep
        what an earlier call left there. */
    method Fill(chunks: seq<seq<Rune>>) returns (inputLen: Uint8)
      requires Valid()
      modifies inputBuffer, roles
      ensures Filled(Cut(Flatten(chunks)), inputLen as int)
      ensures forall k :: inputLen as int <= k < 256 ==>
        inputBuffer[k] == old(inputBuffer[k]) && roles[k] == old(roles[k])
    {
      hide RoleAt;
      inputLen := 0;
      var modifiers := Role(true, true, false);
      for c := 0 to |chunks|
        invariant |Flatten(chunks[..c])| == inputLen as int < 255
        invariant Filled(Flatten(chunks[..c]), inputLen as int)
        invariant modifiers == NextModifiers(Flatten(chunks[..c]))
        invariant forall k :: inputLen as int <= k < 256 ==>
          inputBuffer[k] == old(inputBuffer[k]) && roles[k] == old(roles[k])
      {
        ghost var before := Flatten(chunks[..c]);
        assert chunks[..c + 1][..c] == chunks[..c];
        inputLen, modifiers := FillChunk(chunks[c], inputLen, modifiers, before);
        if inputLen == 255 {
          FlattenPrefix(chunks, c);
          assert Cut(Flatten(chunks)) == Cut(before + chunks[c]);
          return;
        }
      }
      assert chunks[..|chunks|] == chunks;
    }

    /** How many slots the backward scan visits: with an empty input the index `inputLen - 1`
        wraps and the scan runs over all 256 slots, whatever earlier calls left in them. */
    function Scanned(inputLen: Uint8): (n: nat)
      ensures 0 < n <= 256
    {
      Dec(inputLen) as int + 1
    }

    /** The second phase: the right-most match, and the segments from the right. */
    method Backward(inputLen: Uint8) returns (start: int)
      requires Valid() && patternLen > 0
      modifies segments
      ensures var s := inputBuffer[..Scanned(inputLen)];
        if Matches(Pattern(), s) then IsRightMost(start, Pattern(), s) else start == -1
      ensures -1 <= start < Scanned(inputLen)
      ensures start >= 0 ==> forall k :: start <= k < Scanned(inputLen) ==>
        segments[k] as int == Segments(roles[..Scanned(inputLen)], k)
    {
      hide Segments, IsEmbedding, NoneAfter, Matches, IsRightMost;
      var pi := patternLen - 1;
      var p := pattern[pi];
      start := -1;
      var rseg: Uint8 := 0;
      var ii := Dec(inputLen);
      ghost var n := Scanned(inputLen);
      ghost var s, pat, rs := inputBuffer[..n], Pattern(), roles[..n];
      ghost var w: seq<int> := [];
      NoSegments(rs, n);
      BackwardStart(pat, s);
      while true
        invariant pi < patternLen && p == pattern[pi] && ii as int < n && start == -1
        invariant pat == Pattern() && s == inputBuffer[..n] && rs == roles[..n]
        invariant rseg as int == Segments(rs, ii as int + 1)
        invariant forall k :: ii as int < k < n ==> segments[k] as int == Segments(rs, k)
        invariant IsEmbedding(w, pat[pi as int + 1..], s) && (w != [] ==> w[0] > ii as int)
        invariant NoneAfter(pat, s, pi as int, ii as int)
        decreases ii
      {
        var r := inputBuffer[ii];
        SegmentsStep(rs, ii as int);
        if rseg < 3 && roles[ii].separator {
          rseg := rseg + 1;
        }
        segments[ii] := rseg;
        if p == r {
          w := Prepend(ii as int, w, pat, pi as int, s);
          if pi == 0 {
            start := ii as int;
            assert pat[0..] == pat;
            BackwardFound(pat, s, w);
            break;
          }
          NoneAfterMatch(pat, s, pi as int, ii as int);
          pi := pi - 1;
          p := pattern[pi];
        } else {
          NoneAfterMiss(pat, s, pi as int, ii as int);
        }
        if ii == 0 {
          BackwardFailed(pat, s, pi as int);
          break;
        }
        ii := ii - 1;
      }
    }

    /** The bonus of the matched rune at `ii`, given the running one. */
    method CharBonus(ii: Uint8, inputLen: Uint8, streak: real, finalChar: bool) returns (bonus: real)
      requires Valid() && ii < inputLen <= 255 && NO_STREAK <= streak <= SEGMENT_STREAK
      requires roles[ii].segmentStart ==> roles[ii].wordStart
      requires streak == NO_STREAK || streak == WORD_STREAK || streak == SEGMENT_STREAK
      ensures var b := Max(streak, RoleBonus(roles[ii]));
        bonus == if finalChar then Min(b, EndCap(roles[..inputLen as int], ii as int)) else b
    {
      bonus := streak;
      if roles[ii].segmentStart && SEGMENT_STREAK > bonus {
        bonus := SEGMENT_STREAK;
      } else if roles[ii].wordStart && WORD_STREAK > bonus {
        bonus := WORD_STREAK;
      }
      if finalChar && bonus > NO_STREAK {
        if ii == inputLen - 1 || roles[ii + 1].segmentStart {
        } else if roles[ii + 1].wordStart {
          bonus := WORD_STREAK;
        } else {
          bonus := NO_STREAK;
        }
      }
    }

    /** The third phase: the shortest match from the start, and its score. */
    method Forward(start: int, inputLen: Uint8) returns (score: real)
      requires Valid() && patternLen > 0 && inputLen <= 255
      requires IsRightMost(start, Pattern(), inputBuffer[..inputLen as int])
      requires 0 <= start < inputLen as int
      requires forall k :: 0 <= k < inputLen as int ==> roles[k].segmentStart ==> roles[k].wordStart
      requires forall k :: start <= k < inputLen as int ==> segments[k] as int == Segments(roles[..inputLen as int], k)
      ensures HasScore(start, Pattern(), inputBuffer[..inputLen as int], roles[..inputLen as int], score)
    {
      hide Segments, Weighted, Partial, Streak, OpenTotal, Total, IsRightMost, EndCap, RoleBonus, IsEmbedding, InRange,
           Running;
      ghost var s, pat, rs := inputBuffer[..inputLen as int], Pattern(), roles[..inputLen as int];
      ghost var f: seq<int> := [];
      var pi: Uint8 := 0;
      var p := pattern[pi];
      var streakBonus := NO_STREAK;
      var totScore := 0.0;
      var ii := start as Uint8;
      PartialStart(start, pat, s, rs);
      while ii < inputLen
        invariant start <= ii as int <= inputLen as int && pi < patternLen && p == pattern[pi]
        invariant Partial(f, pi as int, ii as int, start, pat, s) && InRange(f, |rs|)
        invariant totScore == OpenTotal(rs, f, |f|)
        invariant streakBonus == Running(rs, f, ii as int)
      {
        var r := inputBuffer[ii];
        if r == p {
          PartialStep(f, pi as int, ii as int, start, pat, s);
          RunningStep(rs, f, ii as int);
          pi := pi + 1;
          p := pattern[pi];
          var finalChar := pi >= patternLen;
          streakBonus := CharBonus(ii, inputLen, streakBonus, finalChar);
          totScore := totScore + Weighted(streakBonus, segments[ii] as int);
          f := f + [ii as int];
          if finalChar {
            ScoreDone(f, start, pat, s, rs, totScore);
            return totScore / patternLen as real;
          }
        } else {
          PartialSkip(f, pi as int, ii as int, start, pat, s);
          RunningReset(rs, f, ii as int, pi as int, start, pat, s);
          streakBonus := NO_STREAK;
        }
        ii := ii + 1;
      }
      assert false by { PartialInside(f, pi as int, ii as int, start, pat, s); }
    }

    /** For a non-empty input the result is the documented one. For an empty input the
        backward scan reads all 256 slots of the buffer as earlier calls left them: the
        score is 0, but the offset is -1 only if the pattern does not occur in them. */
    method Match(chunks: seq<seq<Rune>>) returns (start: int, score: real)
      requires Valid()
      modifies inputBuffer, roles, segments
      ensures Flatten(chunks) != [] ==> IsMatchResult(toLower, Pattern(), Flatten(chunks), start, score)
      ensures Pattern() == [] ==> inputBuffer[..] == old(inputBuffer[..])
      ensures Pattern() != [] ==>
        inputBuffer[..] == LowerAll(toLower, Cut(Flatten(chunks))) + old(inputBuffer[..])[|Cut(Flatten(chunks))|..]
      ensures Flatten(chunks) == [] ==> score == 0.0
      ensures Flatten(chunks) == [] ==>
        if Pattern() != [] && Matches(Pattern(), old(inputBuffer[..]))
          then IsRightMost(start, Pattern(), old(inputBuffer[..]))
        else start == -1
    {
      hide IsRightMost, Matches, RoleAt, Lower, HasScore, Segments;
      if patternLen == 0 {
        return -1, 0.0;
      }
      var inputLen := Fill(chunks);
      ghost var s := Cut(Flatten(chunks));
      assert inputBuffer[..] == LowerAll(toLower, s) + old(inputBuffer[..])[|s|..];
      start := Backward(inputLen);
      if inputLen == 0 {
        assert inputBuffer[..256] == inputBuffer[..] == old(inputBuffer[..]);
      } else {
        assert inputBuffer[..inputLen as int] == LowerAll(toLower, s);
        assert roles[..inputLen as int] == Roles(toLower, s);
      }
      if start < 0 {
        assert !Matches(Pattern(),
            inputBuffer[..Scanned(inputLen)]) by { RightMostIsPosition(start, Pattern(),
              inputBuffer[..Scanned(inputLen)]); }
        return -1, 0.0;
      }
      if start >= inputLen as int {
        // The loop of the third phase does not run.
        return start, 0.0;
      }
      RolesOrdered(toLower, s);
      score := Forward(start, inputLen);
    }

    /** The first `n` slots hold `s`, lower-cased, and its roles. */
    ghost predicate Filled(s: seq<Rune>, n: int)
      requires Valid()
      reads this, pattern, inputBuffer, roles
    {
      && |s| == n <= 255
      && forall k :: 0 <= k < n ==> inputBuffer[k] == Lower(toLower, s[k]) && roles[k] == RoleAt(toLower, s, k)
    }

    lemma FilledStep(s: seq<Rune>, r: Rune, n: int)
      requires Valid() && |s| + 1 == n <= 255 && Filled(s, n - 1)
      requires inputBuffer[n - 1] == Lower(toLower, r)
      requires roles[n - 1] == RoleAt(toLower, s + [r], n - 1)
      ensures Filled(s + [r], n)
    {
      forall k | 0 <= k < n - 1
        ensures RoleAt(toLower, s + [r], k) == RoleAt(toLower, s, k)
      {
      }
    }
  }

  lemma RightMostIsPosition(i: int, p: seq<Rune>, s: seq<Rune>)
    ensures IsRightMost(i, p, s) ==> 0 <= i < |s|
  {
  }

  lemma RolesOrdered(toLower: Rune -> Rune, s: seq<Rune>)
    ensures forall k :: 0 <= k < |s| ==> Roles(toLower, s)[k].segmentStart ==> Roles(toLower, s)[k].wordStart
  {
  }

  /** The result is determined by the pattern and the concatenated input alone, so neither
      earlier calls on the same matcher nor the way the input is cut into chunks matter. */
  lemma ResultUnique(toLower: Rune -> Rune, p: seq<Rune>, input: seq<Rune>, start: int, score: real, start': int,
                     score': real)
    requires IsMatchResult(toLower, p, input, start, score) && IsMatchResult(toLower, p, input, start', score')
    ensures start == start' && score == score'
  {
    var low, rs := LowerAll(toLower, Cut(input)), Roles(toLower, Cut(input));
    if p != [] && Matches(p, low) {
      RightMostUnique(start, start', p, low);
      var f :| ScoredBy(f, start, p, low, rs, score);
      var f' :| ScoredBy(f', start, p, low, rs, score');
      EarliestUnique(f, f', start, p, low);
    }
  }

  /** A match starts inside the input and scores between 0.24 and 1; a score of 0 means
      that there is no match. */
  lemma ScoreRange(toLower: Rune -> Rune, p: seq<Rune>, input: seq<Rune>, start: int, score: real)
    requires IsMatchResult(toLower, p, input, start, score)
    ensures start >= 0 <==> p != [] && Matches(p, LowerAll(toLower, Cut(input)))
    ensures if start >= 0 then start < |input| && 0.24 <= score <= 1.0 else start == -1 && score == 0.0
  {
    var low := LowerAll(toLower, Cut(input));
    if p != [] && Matches(p, low) {
      RightMostIsPosition(start, p, low);
      var f :| ScoredBy(f, start, p, low, Roles(toLower, Cut(input)), score);
    }
  }

  lemma OnlyAtZero(buf: seq<Rune>, r: Rune, i: int)
    requires buf != [] && buf[0] == r && forall k :: 0 < k < |buf| ==> buf[k] != r
    ensures Matches([r], buf) && (IsRightMost(i, [r], buf) ==> i == 0)
  {
    assert IsEmbedding([0], [r], buf);
  }

  /** The documented promise fails for an empty input after an earlier match: the second
      call reports a match at offset 0 with score 0, where -1 and 0 are promised. */
  method EmptyInputAfterMatch(toLower: Rune -> Rune) returns (start: int, score: real)
    requires toLower(97) == 97
    ensures start == 0 && score == 0.0
  {
    hide HasScore, IsMatchResult, RoleAt, IsRightMost, Matches;
    var m := new SymbolMatcher(toLower, [97], 1);
    assert m.Pattern() == [97];
    assert Flatten([[97]]) == [97] by { assert [[97]][..0] == []; }
    var _, _ := m.Match([[97]]);
    ghost var buf := m.inputBuffer[..];
    assert buf[0] == Lower(toLower, 97) == 97;
    assert forall k :: 0 < k < 256 ==> buf[k] == 0;
    assert Flatten([]) == [];
    start, score := m.Match([]);
    OnlyAtZero(buf, 97, start);
  }

  lemma NoSegments(rs: seq<Role>, n: nat)
    requires n == |rs|
    ensures Segments(rs, n) == 0
  {
  }

  lemma SegmentsStep(rs: seq<Role>, i: nat)
    requires i < |rs|
    ensures Segments(rs, i) == if rs[i].separator && Segments(rs, i + 1) < 3 then Segments(rs, i + 1) + 1
      else Segments(rs, i + 1)
  {
  }

  /** No match has its rune `j` after position `i`. */
  ghost predicate NoneAfter(p: seq<Rune>, s: seq<Rune>, j: nat, i: int) {
    j < |p| && forall e :: IsEmbedding(e, p, s) ==> e[j] <= i
  }

  lemma BackwardStart(p: seq<Rune>, s: seq<Rune>)
    requires p != []
    ensures NoneAfter(p, s, |p| - 1, |s| - 1) && IsEmbedding([], p[|p|..], s)
  {
  }

  lemma NoneAfterMatch(p: seq<Rune>, s: seq<Rune>, j: nat, i: int)
    requires NoneAfter(p, s, j, i) && j > 0
    ensures NoneAfter(p, s, j - 1, i - 1)
  {
  }

  lemma NoneAfterMiss(p: seq<Rune>, s: seq<Rune>, j: nat, i: int)
    requires NoneAfter(p, s, j, i) && 0 <= i < |s| && s[i] != p[j]
    ensures NoneAfter(p, s, j, i - 1)
  {
  }

  lemma BackwardFound(p: seq<Rune>, s: seq<Rune>, w: seq<int>)
    requires IsEmbedding(w, p, s) && w != [] && NoneAfter(p, s, 0, w[0])
    ensures IsRightMost(w[0], p, s) && Matches(p, s)
  {
  }

  lemma BackwardFailed(p: seq<Rune>, s: seq<Rune>, j: nat)
    requires NoneAfter(p, s, j, -1)
    ensures !Matches(p, s)
  {
  }

  /** Puts position `i`, which holds `p[j]`, before an embedding of the rest of the pattern. */
  ghost function Prepend(i: int, w: seq<int>, p: seq<Rune>, j: nat, s: seq<Rune>): (r: seq<int>)
    requires j < |p| && 0 <= i < |s| && s[i] == p[j]
    requires IsEmbedding(w, p[j + 1..], s) && (w != [] ==> w[0] > i)
    ensures IsEmbedding(r, p[j..], s) && r[0] == i
  {
    var r := [i] + w;
    assert forall k :: 0 < k < |r| ==> p[j..][k] == p[j + 1..][k - 1];
    r
  }

  /** `f` is what the forward scan has matched of `p` before position `i`: an embedding of
      the first `j` runes, as early as any, and no match from `start` has rune `j` before `i`. */
  ghost predicate Partial(f: seq<int>, j: nat, i: int, start: int, p: seq<Rune>, s: seq<Rune>) {
    && j < |p| && IsEmbedding(f, p[..j], s) && (forall k :: 0 <= k < j ==> f[k] < i)
    && (if j == 0 then i == start else f[0] == start)
    && (forall e, k :: IsEmbedding(e, p, s) && e[0] >= start && 0 <= k < j ==> f[k] <= e[k])
    && (forall e :: IsEmbedding(e, p, s) && e[0] >= start ==> i <= e[j])
  }

  lemma AppendEmbedding(f: seq<int>, j: nat, i: int, p: seq<Rune>, s: seq<Rune>)
    requires j < |p| && IsEmbedding(f, p[..j], s) && (j > 0 ==> f[j - 1] < i) && 0 <= i < |s| && s[i] == p[j]
    ensures IsEmbedding(f + [i], p[..j + 1], s)
  {
    assert p[..j + 1] == p[..j] + [p[j]];
  }

  lemma PartialStep(f: seq<int>, j: nat, i: int, start: int, p: seq<Rune>, s: seq<Rune>)
    requires Partial(f, j, i, start, p, s) && 0 <= i < |s| && s[i] == p[j]
    ensures j + 1 < |p| ==> Partial(f + [i], j + 1, i + 1, start, p, s)
    ensures j + 1 == |p| ==> IsEarliestFrom(f + [i], start, p, s)
  {
    hide IsEmbedding;
    AppendEmbedding(f, j, i, p, s);
    assert p[..|p|] == p;
    forall e | IsEmbedding(e, p, s) && e[0] >= start
      ensures |e| == |p| && (j + 1 < |p| ==> i + 1 <= e[j + 1])
    {
      assert i <= e[j];
      EmbeddingLength(e, p, s);
    }
  }

  lemma EmbeddingLength(e: seq<int>, p: seq<Rune>, s: seq<Rune>)
    requires IsEmbedding(e, p, s)
    ensures |e| == |p| && forall k :: 0 < k < |e| ==> e[k - 1] < e[k]
  {
  }

  lemma PartialSkip(f: seq<int>, j: nat, i: int, start: int, p: seq<Rune>, s: seq<Rune>)
    requires Partial(f, j, i, start, p, s) && 0 <= i < |s| && s[i] != p[j]
    requires IsRightMost(start, p, s)
    ensures Partial(f, j, i + 1, start, p, s)
  {
  }

  /** The streak bonus with which the scan comes to position `i`. */
  ghost function Running(rs: seq<Role>, f: seq<int>, i: int): (b: real)
    requires InRange(f, |rs|)
    ensures b == SEGMENT_STREAK || b == WORD_STREAK || b == NO_STREAK
  {
    if f != [] && f[|f| - 1] + 1 == i then Streak(rs, f, |f| - 1) else NO_STREAK
  }

  lemma PartialStart(start: int, p: seq<Rune>, s: seq<Rune>, rs: seq<Role>)
    requires IsRightMost(start, p, s)
    ensures Partial([], 0, start, start, p, s) && InRange([], |rs|)
    ensures OpenTotal(rs, [], 0) == 0.0 && Running(rs, [], start) == NO_STREAK
  {
  }

  /** The forward scan cannot run off the input before the pattern is used up. */
  lemma PartialInside(f: seq<int>, j: nat, i: int, start: int, p: seq<Rune>, s: seq<Rune>)
    requires Partial(f, j, i, start, p, s) && IsRightMost(start, p, s)
    ensures i < |s|
  {
    var e :| IsEmbedding(e, p, s) && e[0] == start;
    assert i <= e[j];
  }

  /** One more matched rune: its streak, and the sum with it, open or closed. */
  lemma RunningStep(rs: seq<Role>, f: seq<int>, i: int)
    requires InRange(f, |rs|) && 0 <= i < |rs|
    ensures InRange(f + [i], |rs|)
    ensures var b := Max(Running(rs, f, i), RoleBonus(rs[i]));
      && Running(rs, f + [i], i + 1) == b
      && OpenTotal(rs, f + [i], |f| + 1) == OpenTotal(rs, f, |f|) + Weighted(b, Segments(rs, i))
      && Total(rs, f + [i], |f| + 1) == OpenTotal(rs, f, |f|) + Weighted(Min(b, EndCap(rs, i)), Segments(rs, i))
  {
    hide Weighted, Segments, EndCap;
    if f != [] {
      StreakExtends(rs, f, i, |f| - 1);
    }
    OpenTotalExtends(rs, f, i, |f|);
    TotalIsOpen(rs, f + [i], |f|);
  }

  lemma RunningReset(rs: seq<Role>, f: seq<int>, i: int, j: nat, start: int, p: seq<Rune>, s: seq<Rune>)
    requires Partial(f, j, i, start, p, s) && InRange(f, |rs|)
    ensures Running(rs, f, i + 1) == NO_STREAK
  {
  }

  lemma ScoreDone(f: seq<int>, start: int, p: seq<Rune>, s: seq<Rune>, rs: seq<Role>, total: real)
    requires IsEarliestFrom(f, start, p, s) && |s| == |rs| && InRange(f, |rs|) && f != []
    requires total == Total(rs, f, |f|)
    ensures HasScore(start, p, s, rs, total / |p| as real)
  {
    assert ScoredBy(f, start, p, s, rs, total / |p| as real);
  }

  /** The modifiers that the loop carries to the rune after `s`. */
  function NextModifiers(s: seq<Rune>): Role {
    var first := s == [] || IsSeparator(s[|s| - 1]);
    Role(first, first, false)
  }

  lemma {:induction false} FlattenPrefix(chunks: seq<seq<Rune>>, c: nat)
    requires c < |chunks|
    ensures Flatten(chunks[..c]) + chunks[c] <= Flatten(chunks)
    decreases |chunks|
  {
    if c == |chunks| - 1 {
    } else {
      var front := chunks[..|chunks| - 1];
      assert front[..c] == chunks[..c] && front[c] == chunks[c];
      FlattenPrefix(front, c);
    }
  }
}
