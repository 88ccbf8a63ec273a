/** Search results with their scores: ranking them, and cutting and merging ranked lists. */
module Hits {
  import opened Basics
  import FuzzySpec
  import opened Ranking

  type Path = seq<FuzzySpec.Rune>

  datatype Hit = Hit(path: Path, score: real)

  function Scores(hits: seq<Hit>): (r: seq<real>)
    ensures |r| == |hits| && forall i :: 0 <= i < |hits| ==> r[i] == hits[i].score
  {
    seq(|hits|, i requires 0 <= i < |hits| => hits[i].score)
  }

  predicate Ranked(hits: seq<Hit>) {
    forall i, j :: 0 <= i < j < |hits| ==> hits[i].score >= hits[j].score
  }

  predicate IsRankingOf(hits: seq<Hit>, r: seq<Hit>) {
    Ranked(r) && multiset(r) == multiset(hits)
  }

  lemma {:induction false} ScoresPermuted(s: seq<Hit>, t: seq<Hit>)
    requires multiset(s) == multiset(t)
    ensures multiset(Scores(s)) == multiset(Scores(t))
    decreases |s|
  {
    hide Without;
    assert |s| == |multiset(s)| && |t| == |multiset(t)|;
    if s == [] {
      assert t == [];
    } else {
      assert s[0] in multiset(t);
      var j :| 0 <= j < |t| && t[j] == s[0];
      WithoutElement(s, 0);
      WithoutElement(t, j);
      assert |Without(s, 0)| < |s| by { assert |multiset(Without(s, 0))| == |Without(s, 0)|; }
      ScoresPermuted(Without(s, 0), Without(t, j));
      ScoresWithout(s, 0);
      ScoresWithout(t, j);
      PutBack(Scores(s), 0, Scores(t), j);
    }
  }

  lemma PutBack<T>(a: seq<T>, i: nat, b: seq<T>, j: nat)
    requires i < |a| && j < |b| && a[i] == b[j] && multiset(Without(a, i)) == multiset(Without(b, j))
    ensures multiset(a) == multiset(b)
  {
    hide Without;
    WithoutElement(a, i);
    WithoutElement(b, j);
    assert a[i] in multiset(a) && b[j] in multiset(b);
    assert multiset(a) == (multiset(a) - multiset{a[i]}) + multiset{a[i]};
  }

  lemma ScoresWithout(s: seq<Hit>, j: nat)
    requires j < |s|
    ensures Scores(Without(s, j)) == Without(Scores(s), j)
  {
  }

  lemma RankingScores(hits: seq<Hit>, r: seq<Hit>)
    requires IsRankingOf(hits, r)
    ensures IsRanking(Scores(hits), Scores(r))
  {
    ScoresPermuted(r, hits);
  }

  lemma InsertAt(ranked: seq<Hit>, k: nat, h: Hit)
    requires k <= |ranked|
    ensures multiset(ranked[..k] + [h] + ranked[k..]) == multiset(ranked) + multiset{h}
  {
    assert ranked == ranked[..k] + ranked[k..];
  }

  lemma InsertRanked(ranked: seq<Hit>, k: nat, h: Hit)
    requires Ranked(ranked) && k <= |ranked|
    requires k > 0 ==> ranked[k - 1].score >= h.score
    requires k < |ranked| ==> ranked[k].score <= h.score
    ensures Ranked(ranked[..k] + [h] + ranked[k..])
  {
    var r := ranked[..k] + [h] + ranked[k..];
    forall i, j | 0 <= i < j < |r|
      ensures r[i].score >= r[j].score
    {
      assert i < k ==> r[i] == ranked[i];
      assert j > k ==> r[j] == ranked[j - 1];
    }
  }

  method Insert(ranked: seq<Hit>, h: Hit) returns (r: seq<Hit>)
    requires Ranked(ranked)
    ensures Ranked(r) && multiset(r) == multiset(ranked) + multiset{h}
  {
    hide Ranked;
    var k := 0;
    while k < |ranked| && ranked[k].score >= h.score
      invariant 0 <= k <= |ranked|
      invariant k > 0 ==> ranked[k - 1].score >= h.score
    {
      k := k + 1;
    }
    InsertAt(ranked, k, h);
    InsertRanked(ranked, k, h);
    r := ranked[..k] + [h] + ranked[k..];
  }

  /** `sort.Slice` by descending score; how equal scores are ordered is left open. */
  method Sort(hits: seq<Hit>) returns (r: seq<Hit>)
    ensures IsRankingOf(hits, r)
  {
    hide Ranked;
    r := [];
    assert Ranked(r) by { EmptyRanked(); }
    for i := 0 to |hits|
      invariant Ranked(r) && multiset(r) == multiset(hits[..i])
    {
      assert hits[..i + 1] == hits[..i] + [hits[i]];
      r := Insert(r, hits[i]);
    }
    assert hits[..|hits|] == hits;
  }

  lemma EmptyRanked()
    ensures Ranked([])
  {
  }

  function TakeHits(s: seq<Hit>, k: nat): (r: seq<Hit>)
    ensures r <= s && |r| == Min(k, |s|)
  {
    if |s| > k then s[..k] else s
  }

  lemma {:induction false} ConcatAppend<T>(lists: seq<seq<T>>, x: seq<T>)
    ensures Concat(lists + [x]) == Concat(lists) + x
  {
    if lists == [] {
      assert lists + [x] == [x] && [x][1..] == [];
    } else {
      assert (lists + [x])[1..] == lists[1..] + [x];
      ConcatAppend(lists[1..], x);
    }
  }

  // ------------------------------------------------------- cut and merged

  /** What is left of a list of hits that is ranked and cut. */
  ghost predicate IsCut(hits: seq<Hit>, k: nat, cut: seq<Hit>) {
    exists r :: IsRankingOf(hits, r) && cut == TakeHits(r, k)
  }

  ghost predicate Cuts(full: seq<seq<Hit>>, k: nat, cut: seq<seq<Hit>>) {
    |cut| == |full| && forall g :: 0 <= g < |full| ==> IsCut(full[g], k, cut[g])
  }

  predicate AtMost(full: seq<seq<Hit>>, k: nat) {
    forall g :: 0 <= g < |full| ==> |full[g]| <= k
  }

  function ScoreLists(lists: seq<seq<Hit>>): (r: seq<seq<real>>)
    ensures |r| == |lists| && forall g :: 0 <= g < |lists| ==> r[g] == Scores(lists[g])
  {
    seq(|lists|, g requires 0 <= g < |lists| => Scores(lists[g]))
  }

  lemma {:induction false} ScoresOfConcat(lists: seq<seq<Hit>>)
    ensures Scores(Concat(lists)) == Concat(ScoreLists(lists))
  {
    if lists != [] {
      ScoresOfConcat(lists[1..]);
      assert ScoreLists(lists)[1..] == ScoreLists(lists[1..]);
    }
  }

  lemma HitPagesAgree(full: seq<seq<Hit>>, cut: seq<seq<Hit>>, offset: nat, maxResults: nat, all: seq<Hit>,
                      merged: seq<Hit>)
    requires Cuts(full, offset + maxResults, cut)
    requires IsRankingOf(Concat(full), all) && IsRankingOf(Concat(cut), merged)
    ensures Scores(Page(merged, offset, maxResults)) == Page(Scores(all), offset, maxResults) <==>
      maxResults > 0 || AtMost(full, offset)
  {
    hide IsRankingOf, IsRanking, Concat, IsTop, Scores, Page;
    CutScores(full, offset + maxResults, cut);
    RankingScores(Concat(full), all);
    RankingScores(Concat(cut), merged);
    ScoresOfConcat(full);
    ScoresOfConcat(cut);
    if maxResults > 0 {
      PagesAgree(ScoreLists(full), ScoreLists(cut), offset, maxResults, Scores(all), Scores(merged));
    } else {
      UnlimitedPagesAgree(ScoreLists(full), ScoreLists(cut), offset, Scores(all), Scores(merged));
      ScoreLengths(full, offset);
    }
    ScoresOfPage(merged, offset, maxResults);
  }

  lemma ScoreLengths(full: seq<seq<Hit>>, k: nat)
    ensures AtMost(full, k) <==> forall g :: 0 <= g < |ScoreLists(full)| ==> |ScoreLists(full)[g]| <= k
  {
    assert forall g :: 0 <= g < |full| ==> |ScoreLists(full)[g]| == |full[g]|;
  }

  lemma ScoresOfPage(hits: seq<Hit>, offset: nat, maxResults: nat)
    ensures Scores(Page(hits, offset, maxResults)) == Page(Scores(hits), offset, maxResults)
  {
  }

  lemma CutScores(full: seq<seq<Hit>>, k: nat, cut: seq<seq<Hit>>)
    requires Cuts(full, k, cut)
    ensures AllTop(ScoreLists(full), k, ScoreLists(cut))
  {
    hide IsRankingOf, IsRanking;
    forall g | 0 <= g < |full|
      ensures IsTop(Scores(full[g]), k, Scores(cut[g]))
    {
      var r :| IsRankingOf(full[g], r) && cut[g] == TakeHits(r, k);
      RankingScores(full[g], r);
      assert Scores(cut[g]) == Take(Scores(r), k);
    }
  }

  // ------------------------------------------------------ a ranking of it all

  lemma {:induction false} RankingExists(hits: seq<Hit>) returns (r: seq<Hit>)
    ensures IsRankingOf(hits, r)
  {
    if hits == [] {
      r := [];
    } else {
      var t := RankingExists(hits[1..]);
      var k := PlaceFor(t, hits[0]);
      InsertAt(t, k, hits[0]);
      InsertRanked(t, k, hits[0]);
      r := t[..k] + [hits[0]] + t[k..];
      assert hits == [hits[0]] + hits[1..];
    }
  }

  lemma {:induction false} PlaceFor(ranked: seq<Hit>, h: Hit) returns (k: nat)
    requires Ranked(ranked)
    ensures k <= |ranked| && (k > 0 ==> ranked[k - 1].score >= h.score)
    ensures k < |ranked| ==> ranked[k].score <= h.score
  {
    if ranked == [] || ranked[0].score <= h.score {
      k := 0;
    } else {
      k := PlaceFor(ranked[1..], h);
      k := k + 1;
    }
  }

  lemma RankedWithout(s: seq<Hit>, j: nat)
    requires Ranked(s) && j < |s|
    ensures Ranked(Without(s, j))
  {
  }

  /** A ranked list without some of its hits is ranked. */
  lemma {:induction false} TakenOut(all: seq<Hit>, some: seq<Hit>) returns (rest: seq<Hit>)
    requires Ranked(all) && multiset(some) <= multiset(all)
    ensures Ranked(rest) && multiset(some + rest) == multiset(all)
    decreases |some|
  {
    hide Ranked, Without;
    if some == [] {
      rest := all;
      assert some + rest == rest;
    } else {
      var j := TakenFrom(all, some);
      RankedWithout(all, j);
      rest := TakenOut(Without(all, j), some[1..]);
      PutInFront(all, j, some, rest);
    }
  }

  lemma TakenFrom(all: seq<Hit>, some: seq<Hit>) returns (j: nat)
    requires some != [] && multiset(some) <= multiset(all)
    ensures j < |all| && all[j] == some[0] && multiset(some[1..]) <= multiset(Without(all, j))
  {
    hide Without;
    assert some == [some[0]] + some[1..];
    assert some[0] in multiset(some);
    assert some[0] in all;
    j :| 0 <= j < |all| && all[j] == some[0];
    WithoutElement(all, j);
  }

  lemma PutInFront(all: seq<Hit>, j: nat, some: seq<Hit>, rest: seq<Hit>)
    requires some != [] && j < |all| && all[j] == some[0] && multiset(some[1..] + rest) == multiset(Without(all, j))
    ensures multiset(some + rest) == multiset(all)
  {
    hide Without;
    assert some + rest == [some[0]] + (some[1..] + rest);
    WithoutElement(all, j);
    assert all[j] in multiset(all);
  }

  lemma TakeIsPart(r: seq<Hit>, k: nat)
    ensures multiset(TakeHits(r, k)) <= multiset(r)
  {
    if |r| > k {
      assert r == r[..k] + r[k..];
    }
  }

  lemma CutsRest(full: seq<seq<Hit>>, k: nat, cut: seq<seq<Hit>>)
    requires Cuts(full, k, cut) && full != []
    ensures Cuts(full[1..], k, cut[1..])
  {
    hide IsCut;
  }

  lemma JoinParts<T>(a: seq<T>, b: seq<T>, c: seq<T>, d: seq<T>)
    requires multiset(a) <= multiset(c) && multiset(b) <= multiset(d)
    ensures multiset(a + b) <= multiset(c + d)
  {
    assert multiset(a + b) == multiset(a) + multiset(b) && multiset(c + d) == multiset(c) + multiset(d);
  }

  lemma {:induction false} CutIsPart(full: seq<seq<Hit>>, k: nat, cut: seq<seq<Hit>>)
    requires Cuts(full, k, cut)
    ensures multiset(Concat(cut)) <= multiset(Concat(full))
  {
    hide IsRankingOf;
    if full != [] {
      CutsRest(full, k, cut);
      CutIsPart(full[1..], k, cut[1..]);
      var r :| IsRankingOf(full[0], r) && cut[0] == TakeHits(r, k);
      TakeIsPart(r, k);
      RankingIs(full[0], r);
      JoinParts(cut[0], Concat(cut[1..]), full[0], Concat(full[1..]));
    }
  }

  lemma RankingIs(hits: seq<Hit>, r: seq<Hit>)
    requires IsRankingOf(hits, r)
    ensures Ranked(r) && multiset(r) == multiset(hits)
  {
  }

  lemma CancelFirst<T>(a: seq<T>, b: seq<T>, c: seq<T>)
    requires multiset(a + b) == multiset(a + c)
    ensures multiset(b) == multiset(c)
  {
    assert multiset(a + b) == multiset(a) + multiset(b) && multiset(a + c) == multiset(a) + multiset(c);
    assert multiset(b) == multiset(a + b) - multiset(a);
    assert multiset(c) == multiset(a + c) - multiset(a);
  }

  lemma PartsOf<T>(a: seq<T>, b: seq<T>)
    ensures multiset(a) <= multiset(a + b) && multiset(b) <= multiset(a + b)
  {
  }

  /** What is taken out from the front leaves only scores from behind. */
  lemma ScoreFromBehind(all: seq<Hit>, first: seq<Hit>, rest: seq<Hit>) returns (j: nat)
    requires multiset(first + rest) == multiset(all) && rest != []
    requires |first| <= |all| && Scores(first) == Scores(all)[..|first|]
    ensures |first| <= j < |all| && all[j].score == rest[0].score
  {
    var k := |first|;
    ScoresPermuted(first + rest, all);
    var behind := Scores(all)[k..];
    assert Scores(first + rest) == Scores(first) + Scores(rest);
    assert Scores(all) == Scores(first) + behind;
    CancelFirst(Scores(first), Scores(rest), behind);
    assert Scores(rest)[0] in multiset(behind);
    var i :| 0 <= i < |behind| && behind[i] == Scores(rest)[0];
    j := k + i;
  }

  lemma RankedJoin(a: seq<Hit>, b: seq<Hit>)
    requires Ranked(a) && Ranked(b) && (a != [] && b != [] ==> a[|a| - 1].score >= b[0].score)
    ensures Ranked(a + b)
  {
    var s := a + b;
    forall i, j | 0 <= i < j < |s|
      ensures s[i].score >= s[j].score
    {
      if i < |a| <= j {
        assert a[i].score >= a[|a| - 1].score && b[0].score >= b[j - |a|].score;
      }
    }
  }

  /** And so no better hit. */
  lemma RestIsLower(all: seq<Hit>, first: seq<Hit>, rest: seq<Hit>)
    requires Ranked(all) && Ranked(first) && Ranked(rest) && multiset(first + rest) == multiset(all)
    requires |first| <= |all| && Scores(first) == Scores(all)[..|first|]
    ensures Ranked(first + rest)
  {
    if first != [] && rest != [] {
      var k := |first|;
      var j := ScoreFromBehind(all, first, rest);
      assert first[k - 1].score == Scores(first)[k - 1] == all[k - 1].score;
    }
    RankedJoin(first, rest);
  }

  /** The first `k` of the merged cut lists are the first `k` of some ranking of all hits, the
      packages included. */
  lemma TopsAreTop(full: seq<seq<Hit>>, k: nat, cut: seq<seq<Hit>>, merged: seq<Hit>) returns (all: seq<Hit>)
    requires Cuts(full, k, cut) && IsRankingOf(Concat(cut), merged)
    ensures IsRankingOf(Concat(full), all) && TakeHits(all, k) == TakeHits(merged, k)
  {
    hide Concat, Cuts, Ranked;
    var some := RankingExists(Concat(full));
    SameTopScores(full, k, cut, some, merged);
    CutIsPart(full, k, cut);
    TakeIsPart(merged, k);
    var first := TakeHits(merged, k);
    FirstRanked(merged, k);
    var rest := TakenOut(some, first);
    RestIsLower(some, first, rest);
    all := first + rest;
    assert |all| == |multiset(all)| == |multiset(some)| == |some|;
    if |first| < k {
      assert rest == [];
    }
  }

  lemma FirstRanked(s: seq<Hit>, k: nat)
    requires Ranked(s)
    ensures Ranked(TakeHits(s, k))
  {
  }

  lemma SameTopScores(full: seq<seq<Hit>>, k: nat, cut: seq<seq<Hit>>, all: seq<Hit>, merged: seq<Hit>)
    requires Cuts(full, k, cut) && IsRankingOf(Concat(full), all) && IsRankingOf(Concat(cut), merged)
    ensures var first := TakeHits(merged, k);
      |first| == Min(k, |all|) && Scores(first) == Scores(all)[..|first|]
  {
    hide IsRankingOf, IsRanking, Concat, IsTop, Cuts;
    CutScores(full, k, cut);
    RankingScores(Concat(full), all);
    RankingScores(Concat(cut), merged);
    ScoresOfConcat(full);
    ScoresOfConcat(cut);
    TopOfTops(ScoreLists(full), k, ScoreLists(cut), Scores(all), Scores(merged));
    assert Scores(TakeHits(merged, k)) == Take(Scores(merged), k);
  }

  lemma PageOfTop(all: seq<Hit>, merged: seq<Hit>, offset: nat, maxResults: nat)
    requires maxResults > 0 && TakeHits(all, offset + maxResults) == TakeHits(merged, offset + maxResults)
    ensures Page(all, offset, maxResults) == Page(merged, offset, maxResults)
  {
    var a, b := Page(all, offset, maxResults), Page(merged, offset, maxResults);
    var t, u := TakeHits(all, offset + maxResults), TakeHits(merged, offset + maxResults);
    assert |a| == |b|;
    forall i | 0 <= i < |a|
      ensures a[i] == b[i]
    {
      assert a[i] == t[offset + i] && b[i] == u[offset + i];
    }
  }

  lemma {:induction false} NothingCut(full: seq<seq<Hit>>, k: nat, cut: seq<seq<Hit>>)
    requires Cuts(full, k, cut) && AtMost(full, k)
    ensures multiset(Concat(cut)) == multiset(Concat(full))
  {
    hide IsRankingOf;
    if full != [] {
      CutsRest(full, k, cut);
      NothingCut(full[1..], k, cut[1..]);
      var r :| IsRankingOf(full[0], r) && cut[0] == TakeHits(r, k);
      assert multiset(r) == multiset(full[0]) by { RankingIs(full[0], r); }
      assert |r| == |multiset(r)| == |multiset(full[0])| == |full[0]|;
    }
  }

  /** The page of the merged cut lists is the page of some ranking of all hits, if there is a page
      size or nothing was cut. */
  lemma PageOfAll(full: seq<seq<Hit>>, cut: seq<seq<Hit>>, offset: nat, maxResults: nat, merged: seq<Hit>)
    returns (all: seq<Hit>)
    requires Cuts(full, offset + maxResults, cut) && IsRankingOf(Concat(cut), merged)
    requires maxResults > 0 || AtMost(full, offset)
    ensures IsRankingOf(Concat(full), all) && Page(merged, offset, maxResults) == Page(all, offset, maxResults)
  {
    hide Concat, Cuts, Ranked, Page, AtMost;
    if maxResults > 0 {
      all := TopsAreTop(full, offset + maxResults, cut, merged);
      PageOfTop(all, merged, offset, maxResults);
    } else {
      NothingCut(full, offset, cut);
      all := merged;
    }
  }

  /** A page shows hits that were found, each no more often than it was found. */
  lemma PageIsPart(full: seq<seq<Hit>>, k: nat, cut: seq<seq<Hit>>, merged: seq<Hit>, offset: nat, maxResults: nat)
    requires Cuts(full, k, cut) && IsRankingOf(Concat(cut), merged)
    ensures multiset(Page(merged, offset, maxResults)) <= multiset(Concat(full))
    ensures Ranked(Page(merged, offset, maxResults))
  {
    hide Concat, Cuts, IsRankingOf;
    CutIsPart(full, k, cut);
    RankingIs(Concat(cut), merged);
    PagePart(merged, offset, maxResults);
  }

  lemma PagePart(s: seq<Hit>, offset: nat, maxResults: nat)
    ensures multiset(Page(s, offset, maxResults)) <= multiset(s)
    ensures Ranked(s) ==> Ranked(Page(s, offset, maxResults))
  {
    var page := Page(s, offset, maxResults);
    if page != [] {
      var a, b := s[..offset], s[offset + |page|..];
      assert s == a + (page + b);
      PartsOf(a, page + b);
      PartsOf(page, b);
    }
  }
}
