/** Counting in ranked lists of scores, and why cutting every source to the page's end
    before merging does not change the page. */
module Ranking {
  import opened Basics

  predicate Descending(s: seq<real>) {
    forall i, j :: 0 <= i < j < |s| ==> s[i] >= s[j]
  }

  /** How many of the scores are at least `x`. */
  function CountAtLeast(s: seq<real>, x: real): (n: nat)
    ensures n <= |s|
  {
    if s == [] then 0 else CountAtLeast(s[1..], x) + if s[0] >= x then 1 else 0
  }

  lemma {:induction false} CountConcat(s: seq<real>, t: seq<real>, x: real)
    ensures CountAtLeast(s + t, x) == CountAtLeast(s, x) + CountAtLeast(t, x)
  {
    if s == [] {
      assert s + t == t;
    } else {
      assert (s + t)[1..] == s[1..] + t;
      CountConcat(s[1..], t, x);
    }
  }

  function Without<T>(s: seq<T>, j: nat): seq<T>
    requires j < |s|
  {
    s[..j] + s[j + 1..]
  }

  lemma WithoutElement<T>(s: seq<T>, j: nat)
    requires j < |s|
    ensures multiset(Without(s, j)) == multiset(s) - multiset{s[j]}
  {
    assert s == s[..j] + [s[j]] + s[j + 1..];
  }

  lemma CountWithout(s: seq<real>, j: nat, x: real)
    requires j < |s|
    ensures CountAtLeast(s, x) == CountAtLeast(Without(s, j), x) + if s[j] >= x then 1 else 0
  {
    assert s == s[..j] + ([s[j]] + s[j + 1..]);
    CountConcat(s[..j], [s[j]] + s[j + 1..], x);
    CountConcat(s[..j], s[j + 1..], x);
    CountConcat([s[j]], s[j + 1..], x);
    assert CountAtLeast([s[j]], x) == if s[j] >= x then 1 else 0;
  }

  lemma {:induction false} CountPermutation(s: seq<real>, t: seq<real>, x: real)
    requires multiset(s) == multiset(t)
    ensures |s| == |t| && CountAtLeast(s, x) == CountAtLeast(t, x)
    decreases |s|
  {
    hide CountAtLeast, Without;
    assert |s| == |multiset(s)| && |t| == |multiset(t)|;
    if s == [] {
      assert t == [];
    } else {
      assert s[0] in multiset(t);
      var j :| 0 <= j < |t| && t[j] == s[0];
      WithoutElement(s, 0);
      WithoutElement(t, j);
      CountWithout(s, 0, x);
      CountWithout(t, j, x);
      assert |Without(s, 0)| < |s| by { assert |multiset(Without(s, 0))| == |Without(s, 0)|; }
      CountPermutation(Without(s, 0), Without(t, j), x);
    }
  }

  /** In a ranked list the scores that are at least `x` are the first ones. */
  lemma {:induction false} CountRanked(s: seq<real>, x: real, i: nat)
    requires Descending(s) && i < |s|
    ensures s[i] >= x <==> i < CountAtLeast(s, x)
  {
    if i > 0 {
      CountRanked(s[1..], x, i - 1);
    }
    if s[0] < x {
      NoneAtLeast(s, x);
    }
  }

  lemma {:induction false} NoneAtLeast(s: seq<real>, x: real)
    requires forall i :: 0 <= i < |s| ==> s[i] < x
    ensures CountAtLeast(s, x) == 0
  {
    if s != [] {
      NoneAtLeast(s[1..], x);
    }
  }

  function Take(s: seq<real>, k: nat): (r: seq<real>)
    ensures |r| == Min(k, |s|)
  {
    if |s| <= k then s else s[..k]
  }

  lemma {:induction false} CountTake(s: seq<real>, k: nat, x: real)
    requires Descending(s)
    ensures CountAtLeast(Take(s, k), x) == Min(k, CountAtLeast(s, x))
  {
    if 0 < k < |s| {
      assert Take(s, k)[1..] == Take(s[1..], k - 1);
      CountTake(s[1..], k - 1, x);
      if s[0] < x {
        NoneAtLeast(s, x);
      }
    }
  }

  function Concat<T>(lists: seq<seq<T>>): seq<T> {
    if lists == [] then [] else lists[0] + Concat(lists[1..])
  }

  /** `r` is the list `s` ranked by descending score; equal scores may come in any order. */
  predicate IsRanking(s: seq<real>, r: seq<real>) {
    Descending(r) && multiset(r) == multiset(s)
  }

  /** `t` is the top `k` of `s`. */
  ghost predicate IsTop(s: seq<real>, k: nat, t: seq<real>) {
    exists r :: IsRanking(s, r) && t == Take(r, k)
  }

  ghost predicate AllTop(full: seq<seq<real>>, k: nat, cut: seq<seq<real>>) {
    |full| == |cut| && forall g :: 0 <= g < |full| ==> IsTop(full[g], k, cut[g])
  }

  lemma TopCounts(s: seq<real>, k: nat, t: seq<real>, x: real)
    requires IsTop(s, k, t)
    ensures |t| == Min(k, |s|) && CountAtLeast(t, x) == Min(k, CountAtLeast(s, x))
  {
    var r :| IsRanking(s, r) && t == Take(r, k);
    CountPermutation(r, s, x);
    CountTake(r, k, x);
  }

  lemma {:induction false} ConcatCounts(full: seq<seq<real>>, k: nat, cut: seq<seq<real>>, x: real)
    requires AllTop(full, k, cut)
    ensures Min(k, |Concat(full)|) == Min(k, |Concat(cut)|)
    ensures Min(k, CountAtLeast(Concat(full), x)) == Min(k, CountAtLeast(Concat(cut), x))
  {
    if full != [] {
      ConcatCounts(full[1..], k, cut[1..], x);
      TopCounts(full[0], k, cut[0], x);
      CountConcat(full[0], Concat(full[1..]), x);
      CountConcat(cut[0], Concat(cut[1..]), x);
    }
  }

  /** The first `k` of the merged cut lists are the first `k` of everything. */
  lemma TopOfTops(full: seq<seq<real>>, k: nat, cut: seq<seq<real>>, all: seq<real>, merged: seq<real>)
    requires AllTop(full, k, cut)
    requires IsRanking(Concat(full), all) && IsRanking(Concat(cut), merged)
    ensures Take(all, k) == Take(merged, k)
  {
    ConcatCounts(full, k, cut, 0.0);
    CountPermutation(all, Concat(full), 0.0);
    CountPermutation(merged, Concat(cut), 0.0);
    forall i | 0 <= i < Min(k, |all|)
      ensures all[i] == merged[i]
    {
      SameSide(full, k, cut, all, merged, i, all[i]);
      SameSide(full, k, cut, all, merged, i, merged[i]);
    }
  }

  lemma SameSide(full: seq<seq<real>>, k: nat, cut: seq<seq<real>>, all: seq<real>, merged: seq<real>, i: nat, x: real)
    requires AllTop(full, k, cut) && IsRanking(Concat(full), all) && IsRanking(Concat(cut), merged)
    requires i < k && i < |all| && i < |merged|
    ensures all[i] >= x <==> merged[i] >= x
  {
    hide AllTop, Descending;
    ConcatCounts(full, k, cut, x);
    CountPermutation(all, Concat(full), x);
    CountPermutation(merged, Concat(cut), x);
    CountRanked(all, x, i);
    CountRanked(merged, x, i);
  }

  // ------------------------------------------------------------------ pages

  /** The part of a ranked list that `Search` returns: what comes after the offset, as much as
      the page holds. */
  function Page<T>(s: seq<T>, offset: nat, maxResults: int): (r: seq<T>)
    ensures |r| == if maxResults > 0 then Min(maxResults, Max(0, |s| - offset)) else Max(0, |s| - offset)
    ensures forall i :: 0 <= i < |r| ==> r[i] == s[offset + i]
  {
    var rest := if offset > 0 then (if |s| < offset then [] else s[offset..]) else s;
    if 0 < maxResults < |rest| then rest[..maxResults] else rest
  }

  lemma PageOfTake(s: seq<real>, offset: nat, maxResults: nat)
    requires maxResults > 0
    ensures Page(s, offset, maxResults) == Page(Take(s, offset + maxResults), offset, maxResults)
  {
    var k := offset + maxResults;
    if |s| > k {
      assert s[..k][offset..] == s[offset..][..maxResults];
    }
  }

  /** Paging over the cut lists shows the same scores as paging over everything, for every
      page size of at least one. */
  lemma PagesAgree(full: seq<seq<real>>, cut: seq<seq<real>>, offset: nat, maxResults: nat, all: seq<real>,
                   merged: seq<real>)
    requires maxResults > 0 && AllTop(full, offset + maxResults, cut)
    requires IsRanking(Concat(full), all) && IsRanking(Concat(cut), merged)
    ensures Page(merged, offset, maxResults) == Page(all, offset, maxResults)
  {
    hide AllTop, IsRanking, Take, Concat, Page;
    TopOfTops(full, offset + maxResults, cut, all, merged);
    PageOfTake(all, offset, maxResults);
    PageOfTake(merged, offset, maxResults);
  }

  function TotalLength(lists: seq<seq<real>>): nat {
    if lists == [] then 0 else |lists[0]| + TotalLength(lists[1..])
  }

  lemma {:induction false} ConcatLength(lists: seq<seq<real>>)
    ensures |Concat(lists)| == TotalLength(lists)
  {
    if lists != [] {
      ConcatLength(lists[1..]);
    }
  }

  lemma {:induction false} CutLengths(full: seq<seq<real>>, k: nat, cut: seq<seq<real>>)
    requires AllTop(full, k, cut)
    ensures TotalLength(cut) <= TotalLength(full)
    ensures (forall g :: 0 <= g < |full| ==> |full[g]| <= k) <==> TotalLength(cut) == TotalLength(full)
    ensures (exists g :: 0 <= g < |full| && |full[g]| > k) ==> TotalLength(full) > k
  {
    if full != [] {
      CutLengths(full[1..], k, cut[1..]);
      TopCounts(full[0], k, cut[0], 0.0);
      assert (forall g :: 0 <= g < |full| ==> |full[g]| <= k)
        <==> |full[0]| <= k && forall g :: 0 <= g < |full[1..]| ==> |full[1..][g]| <= k by {
        assert forall g :: 1 <= g < |full| ==> full[g] == full[1..][g - 1];
      }
      assert (exists g :: 0 <= g < |full| && |full[g]| > k)
        ==> |full[0]| > k || exists g :: 0 <= g < |full[1..]| && |full[1..][g]| > k by {
        assert forall g :: 1 <= g < |full| ==> full[g] == full[1..][g - 1];
      }
    }
  }

  /** With no page size the sources are cut to `offset` results each but the page is not:
      it is the full one exactly when no source has more than `offset` results. */
  lemma UnlimitedPagesAgree(full: seq<seq<real>>, cut: seq<seq<real>>, offset: nat, all: seq<real>, merged: seq<real>)
    requires AllTop(full, offset, cut)
    requires IsRanking(Concat(full), all) && IsRanking(Concat(cut), merged)
    ensures Page(merged, offset, 0) == Page(all, offset, 0) <==> forall g :: 0 <= g < |full| ==> |full[g]| <= offset
  {
    CutLengths(full, offset, cut);
    ConcatLength(full);
    ConcatLength(cut);
    CountPermutation(all, Concat(full), 0.0);
    CountPermutation(merged, Concat(cut), 0.0);
    if forall g :: 0 <= g < |full| ==> |full[g]| <= offset {
      var n := Max(offset, |all|);
      forall g | 0 <= g < |full|
        ensures IsTop(full[g], n, cut[g])
      {
        var r :| IsRanking(full[g], r) && cut[g] == Take(r, offset);
        CountPermutation(r, full[g], 0.0);
        assert cut[g] == Take(r, n);
      }
      TopOfTops(full, n, cut, all, merged);
    } else {
      assert |merged| < |all| && offset < |all|;
    }
  }

  lemma UnlimitedPageExample()
    ensures var full, cut := [[0.5, 0.4]], [[0.5]];
      AllTop(full, 1, cut) && Page([0.5, 0.4], 1, 0) == [0.4] && Page([0.5], 1, 0) == []
  {
    assert IsRanking([0.5, 0.4], [0.5, 0.4]) && Take([0.5, 0.4], 1) == [0.5];
  }
}
