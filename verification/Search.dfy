/** `goPackagesModuleGetter.Search` and `FetchDataSource.Search`. */
module Search {
  import opened FuzzySpec
  import opened FuzzyMatcher
  import opened Ranking
  import opened Hits

  /** The pattern that `NewSymbolMatcher` makes of a query. */
  function PatternOf(toLower: Rune -> Rune, query: seq<Rune>): (r: seq<Rune>)
    ensures |r| == |Cut(query)| && forall i :: 0 <= i < |r| ==> r[i] == toLower(query[i])
  {
    seq(|Cut(query)|, i requires 0 <= i < |Cut(query)| => toLower(query[i]))
  }

  /** `h` is what matching `path` on its own gives: a hit with its score, or none. */
  ghost predicate IsHitOf(toLower: Rune -> Rune, p: seq<Rune>, path: Path, h: seq<Hit>) {
    exists start, score :: IsMatchResult(toLower, p, path, start, score) && h == HitFor(path, start, score)
  }

  function HitFor(path: Path, start: int, score: real): seq<Hit> {
    if start < 0 then [] else [Hit(path, score)]
  }

  ghost predicate AreHitsOf(toLower: Rune -> Rune, p: seq<Rune>, paths: seq<Path>, per: seq<seq<Hit>>) {
    |per| == |paths| && forall i :: 0 <= i < |paths| ==> IsHitOf(toLower, p, paths[i], per[i])
  }

  /** A package is a hit exactly if the pattern occurs in its path, and then under its own path
      with the score of the match. */
  lemma HitExactly(toLower: Rune -> Rune, p: seq<Rune>, path: Path, h: seq<Hit>)
    requires IsHitOf(toLower, p, path, h)
    ensures h == [] <==> p == [] || !Matches(p, LowerAll(toLower, Cut(path)))
    ensures h != [] ==>
      |h| == 1 && h[0].path == path && exists start :: IsMatchResult(toLower, p, path, start, h[0].score)
  {
    hide IsMatchResult, Matches;
    var start, score :| IsMatchResult(toLower, p, path, start, score) && h == HitFor(path, start, score);
    ScoreRange(toLower, p, path, start, score);
  }

  /** A getter's hits are determined by the query and its package paths. */
  lemma HitsUnique(toLower: Rune -> Rune, p: seq<Rune>, paths: seq<Path>, per: seq<seq<Hit>>, per': seq<seq<Hit>>)
    requires AreHitsOf(toLower, p, paths, per) && AreHitsOf(toLower, p, paths, per')
    ensures per == per'
  {
    forall i | 0 <= i < |paths|
      ensures per[i] == per'[i]
    {
      assert IsHitOf(toLower, p, paths[i], per[i]) && IsHitOf(toLower, p, paths[i], per'[i]);
      var a, x :| IsMatchResult(toLower, p, paths[i], a, x) && per[i] == HitFor(paths[i], a, x);
      var b, y :| IsMatchResult(toLower, p, paths[i], b, y) && per'[i] == HitFor(paths[i], b, y);
      ResultUnique(toLower, p, paths[i], a, x, b, y);
    }
  }

  /** What a getter returns for a limit: the top of its hits. */
  ghost predicate IsSearchResult(toLower: Rune -> Rune, p: seq<Rune>, paths: seq<Path>, limit: nat, per: seq<seq<Hit>>,
                                 hits: seq<Hit>) {
    AreHitsOf(toLower, p, paths, per) && exists r :: IsRankingOf(Concat(per), r) && hits == TakeHits(r, limit)
  }

  /** One matcher serves all packages of a getter, and its buffers are reused from one to
      the next; yet each package scores as if it were matched alone. */
  method GetterSearch(toLower: Rune -> Rune, query: seq<Rune>, byteLen: nat, packages: seq<Path>, limit: nat)
    returns (hits: seq<Hit>, ghost per: seq<seq<Hit>>)
    requires |query| <= byteLen
    ensures (forall i :: 0 <= i < |packages| ==> packages[i] != [])
      ==> IsSearchResult(toLower, PatternOf(toLower, query), packages, limit, per, hits)
    ensures |hits| <= limit && Ranked(hits)
  {
    hide IsMatchResult;
    var matcher := new SymbolMatcher(toLower, query, byteLen);
    ghost var p := PatternOf(toLower, query);
    assert matcher.Pattern() == p;
    hits, per := [], [];
    for i := 0 to |packages|
      invariant matcher.Valid() && matcher.toLower == toLower && matcher.Pattern() == p
      invariant fresh(matcher.inputBuffer) && fresh(matcher.roles) && fresh(matcher.segments)
      invariant hits == Concat(per)
      invariant (forall j :: 0 <= j < |packages| ==> packages[j] != []) ==> AreHitsOf(toLower, p, packages[..i], per)
    {
      var start, score := matcher.Match([packages[i]]);
      FlattenOne(packages[i]);
      if packages[i] != [] {
        assert IsHitOf(toLower, p, packages[i], HitFor(packages[i], start, score));
      }
      ConcatAppend(per, HitFor(packages[i], start, score));
      per := per + [HitFor(packages[i], start, score)];
      if start >= 0 {
        hits := hits + [Hit(packages[i], score)];
      }
    }
    assert packages[..|packages|] == packages;
    hits := Sort(hits);
    hits := TakeHits(hits, limit);
  }

  lemma FlattenOne(chunk: seq<Rune>)
    ensures Flatten([chunk]) == chunk
  {
    assert [chunk][..0] == [];
    assert Flatten([]) == [];
  }

  // ------------------------------------------------------------ data source

  /** A configured getter: its packages if it can be searched; `Broken` fails. */
  datatype Getter = Searchable(packages: seq<Path>) | NotSearchable | Broken

  datatype Answer = Results(hits: seq<Hit>) | SearchError

  ghost predicate AllResults(toLower: Rune -> Rune, p: seq<Rune>, getters: seq<Getter>, full: seq<seq<Hit>>) {
    && |full| == |getters|
    && forall g :: 0 <= g < |getters| ==>
      match getters[g]
      case Searchable(paths) => exists per :: AreHitsOf(toLower, p, paths, per) && full[g] == Concat(per)
      case _ => full[g] == []
  }

  predicate NoEmptyPath(getters: seq<Getter>) {
    forall g, i :: 0 <= g < |getters| && getters[g].Searchable? && 0 <= i < |getters[g].packages| ==>
      getters[g].packages[i] != []
  }

  /** The page has the scores of the page of all hits of all getters ranked together exactly
      when there is a page size of at least one, or no getter has more hits than are left out;
      and then it is the page of such a ranking, the packages included. */
  method DataSourceSearch(toLower: Rune -> Rune, query: seq<Rune>, byteLen: nat, getters: seq<Getter>, offset: nat,
                          maxResults: nat)
    returns (r: Answer, ghost full: seq<seq<Hit>>)
    requires |query| <= byteLen
    ensures r.SearchError? <==> Broken in getters
    ensures r.Results? && NoEmptyPath(getters) ==> AllResults(toLower, PatternOf(toLower, query), getters, full)
    ensures r.Results? && NoEmptyPath(getters) ==>
      forall all :: IsRankingOf(Concat(full), all) ==>
        (Scores(r.hits) == Page(Scores(all), offset, maxResults) <==> maxResults > 0 || AtMost(full, offset))
    ensures r.Results? && NoEmptyPath(getters) ==> multiset(r.hits) <= multiset(Concat(full)) && Ranked(r.hits)
    ensures r.Results? && NoEmptyPath(getters) && (maxResults > 0 || AtMost(full, offset)) ==>
      exists all :: IsRankingOf(Concat(full), all) && r.hits == Page(all, offset, maxResults)
  {
    hide AreHitsOf, IsRankingOf, AllResults, Cuts, NoEmptyPath, Scores, Page, IsSearchResult, AtMost;
    ghost var p := PatternOf(toLower, query);
    var limit := offset + maxResults;
    var results: seq<Hit> := [];
    ghost var cut: seq<seq<Hit>> := [];
    full := [];
    NoResults(toLower, p, limit);
    for g := 0 to |getters|
      invariant Broken !in getters[..g]
      invariant NoEmptyPath(getters) ==> AllResults(toLower, p, getters[..g], full) && Cuts(full, limit, cut)
      invariant results == Concat(cut)
    {
      if getters[g].Searchable? {
        var rs, per := GetterSearch(toLower, query, byteLen, getters[g].packages, limit);
        ConcatAppend(cut, rs);
        results := results + rs;
        if NoEmptyPath(getters) {
          NonEmptyPaths(getters, g);
          ResultsSearched(toLower, p, getters, g, full, cut, limit, per, rs);
        }
        cut, full := cut + [rs], full + [Concat(per)];
      } else {
        if getters[g].Broken? {
          assert getters[g] in getters;
          return SearchError, [];
        }
        ConcatAppend(cut, []);
        if NoEmptyPath(getters) {
          ResultsSkipped(toLower, p, getters, g, full, cut, limit);
        }
        cut, full := cut + [[]], full + [[]];
      }
    }
    assert getters[..|getters|] == getters;
    ghost var got := results;
    results := Sort(results);
    r := Results(Page(results, offset, maxResults));
    if NoEmptyPath(getters) {
      forall all | IsRankingOf(Concat(full), all)
        ensures Scores(r.hits) == Page(Scores(all), offset, maxResults) <==> maxResults > 0 || AtMost(full, offset)
      {
        HitPagesAgree(full, cut, offset, maxResults, all, results);
      }
      PageIsPart(full, limit, cut, results, offset, maxResults);
      if maxResults > 0 || AtMost(full, offset) {
        var all := PageOfAll(full, cut, offset, maxResults, results);
      }
    }
  }

  lemma NonEmptyPaths(getters: seq<Getter>, g: nat)
    requires NoEmptyPath(getters) && g < |getters| && getters[g].Searchable?
    ensures forall i :: 0 <= i < |getters[g].packages| ==> getters[g].packages[i] != []
  {
  }

  lemma NoResults(toLower: Rune -> Rune, p: seq<Rune>, limit: nat)
    ensures AllResults(toLower, p, [], []) && Cuts([], limit, [])
  {
  }

  lemma ResultsSearched(toLower: Rune -> Rune, p: seq<Rune>, getters: seq<Getter>, g: nat, full: seq<seq<Hit>>,
                        cut: seq<seq<Hit>>, limit: nat, per: seq<seq<Hit>>, rs: seq<Hit>)
    requires g < |getters| && getters[g].Searchable? && AllResults(toLower, p, getters[..g], full)
    requires Cuts(full, limit, cut)
    requires IsSearchResult(toLower, p, getters[g].packages, limit, per, rs)
    ensures AllResults(toLower, p, getters[..g + 1], full + [Concat(per)])
    ensures Cuts(full + [Concat(per)], limit, cut + [rs])
  {
    hide AreHitsOf, IsRankingOf, Concat;
    assert getters[..g + 1] == getters[..g] + [getters[g]];
  }

  lemma ResultsSkipped(toLower: Rune -> Rune, p: seq<Rune>, getters: seq<Getter>, g: nat, full: seq<seq<Hit>>,
                       cut: seq<seq<Hit>>, limit: nat)
    requires g < |getters| && !getters[g].Searchable? && AllResults(toLower, p, getters[..g], full)
    requires Cuts(full, limit, cut)
    ensures AllResults(toLower, p, getters[..g + 1], full + [[]]) && Cuts(full + [[]], limit, cut + [[]])
  {
    hide AreHitsOf;
    assert getters[..g + 1] == getters[..g] + [getters[g]];
    assert IsRankingOf([], []) && TakeHits([], limit) == [];
  }
}
