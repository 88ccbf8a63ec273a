/** What `loadPackage` returns, said directly of the files that match and of what the loader
    makes of them (internal/fetch/load.go). */
module LoadLaws {
  import opened LoadSpec

  // ---------------------------------------------------- the files of a context

  /** `m` holds the files that the context includes, and no others. */
  ghost predicate Includes(l: Loader, bc: BuildContext, files: Files, m: Files) {
    && (forall n :: n in m ==> n in files && m[n] == files[n])
    && (forall n :: n in files ==> (n in m <==> l.matches(bc, n, files[n]) == Yes))
  }

  /** Just these files are loaded. */
  lemma LoadsIncluded(l: Loader, bc: BuildContext, files: Files, m: Files)
    requires Includes(l, bc, files, m)
    ensures LoadedFor(l, bc, files) == l.load(m)
  {
    hide *;
    assert m == Matching(l, bc, files) by { IncludedIs(l, bc, files, m); }
    LoadedIs(l, bc, files);
  }

  lemma IncludedIs(l: Loader, bc: BuildContext, files: Files, m: Files)
    requires Includes(l, bc, files, m)
    ensures m == Matching(l, bc, files)
  {
    var r := Matching(l, bc, files);
    assert m.Keys == r.Keys;
  }

  lemma LoadedIs(l: Loader, bc: BuildContext, files: Files)
    ensures LoadedFor(l, bc, files) == l.load(Matching(l, bc, files))
  {
  }

  /** Two contexts load different things only if some file matches one of them and not the
      other. */
  lemma DifferentFiles(l: Loader, a: BuildContext, b: BuildContext, files: Files)
    requires LoadedFor(l, a, files) != LoadedFor(l, b, files)
    ensures exists n :: n in files && (l.matches(a, n, files[n]) == Yes) != (l.matches(b, n, files[n]) == Yes)
  {
    if forall n :: n in files ==> (l.matches(a, n, files[n]) == Yes) == (l.matches(b, n, files[n]) == Yes) {
      assert Includes(l, a, files, Matching(l, b, files));
      LoadsIncluded(l, a, files, Matching(l, b, files));
    }
  }

  // ---------------------------------------------------------- the whole answer

  ghost predicate BreaksAt(l: Loader, contexts: seq<BuildContext>, files: Files, i: nat)
    requires i < |contexts|
  {
    exists n :: n in files && l.matches(contexts[i], n, files[n]) == Broken
  }

  /** Context `i` has a package. */
  ghost predicate HasPackage(l: Loader, contexts: seq<BuildContext>, files: Files, i: nat)
    requires i < |contexts|
  {
    LoadedFor(l, contexts[i], files).Good?
  }

  /** Context `i` has a package of another name than context `j`. */
  ghost predicate OtherName(l: Loader, contexts: seq<BuildContext>, files: Files, j: nat, i: nat)
    requires i < |contexts| && j < |contexts|
  {
    HasPackage(l, contexts, files, j) && HasPackage(l, contexts, files, i)
    && LoadedFor(l, contexts[j], files).info.name != LoadedFor(l, contexts[i], files).info.name
  }

  /** Context `i` ends the loop: matching or loading fails, or the documentation is too large, or
      the package has another name than an earlier one. */
  ghost predicate Ends(l: Loader, contexts: seq<BuildContext>, files: Files, i: nat)
    requires i < |contexts|
  {
    || BreaksAt(l, contexts, files, i)
    || LoadedFor(l, contexts[i], files).Fatal? || LoadedFor(l, contexts[i], files).TooLarge?
    || exists j :: 0 <= j < i && OtherName(l, contexts, files, j, i)
  }

  /** The documents of all contexts that have a package, in order. */
  ghost function Documents(l: Loader, contexts: seq<BuildContext>, files: Files): seq<DocValue> {
    if contexts == [] then []
    else
      var n := |contexts| - 1;
      var bc := contexts[n];
      Documents(l, contexts[..n], files)
      + match LoadedFor(l, bc, files)
        case Good(info) => [DocValue(bc, info.synopsis, info.source, Tagged(info.api, bc))]
        case _ => []
  }

  lemma {:induction false} NoDocuments(l: Loader, contexts: seq<BuildContext>, files: Files)
    ensures Documents(l, contexts, files) == [] <==>
      forall i :: 0 <= i < |contexts| ==> !HasPackage(l, contexts, files, i)
  {
    hide LoadedFor;
    if contexts != [] {
      var n := |contexts| - 1;
      NoDocuments(l, contexts[..n], files);
      assert forall i :: 0 <= i < n ==>
          HasPackage(l, contexts[..n], files, i) == HasPackage(l, contexts, files, i);
      assert HasPackage(l, contexts, files, n) == LoadedFor(l, contexts[n], files).Good?;
    }
  }

  lemma EndsSame(l: Loader, contexts: seq<BuildContext>, files: Files, n: nat, i: nat)
    requires i < n <= |contexts|
    ensures Ends(l, contexts[..n], files, i) == Ends(l, contexts, files, i)
  {
    hide LoadedFor;
    assert contexts[..n][i] == contexts[i];
    assert forall j :: 0 <= j < i ==> OtherName(l, contexts[..n], files, j, i) == OtherName(l, contexts, files, j, i);
  }

  /** While no context ends the loop, it collects the documents; name and imports are those of the
      first package. */
  lemma {:induction false} RunCollects(l: Loader, contexts: seq<BuildContext>, files: Files)
    requires forall i :: 0 <= i < |contexts| ==> !Ends(l, contexts, files, i)
    ensures Run(l, contexts, files).Go? && Run(l, contexts, files).p.docs == Documents(l, contexts, files)
    ensures forall i :: 0 <= i < |contexts| && HasPackage(l, contexts, files, i) ==>
      Run(l, contexts, files).p.name == LoadedFor(l, contexts[i], files).info.name
    ensures forall i :: IsFirst(l, contexts, files, i) ==>
      Run(l, contexts, files).p.imports == LoadedFor(l, contexts[i], files).info.imports
  {
    hide LoadedFor, Ends, AnyBroken, Advance, DocOf;
    if contexts != [] {
      var n := |contexts| - 1;
      forall i | 0 <= i < n
        ensures !Ends(l, contexts[..n], files, i) && contexts[..n][i] == contexts[i]
      {
        EndsSame(l, contexts, files, n, i);
      }
      RunCollects(l, contexts[..n], files);
      NoDocuments(l, contexts[..n], files);
      var p := Run(l, contexts[..n], files).p;
      AdvanceCases(l, contexts[n], files, p);
      FirstsSame(l, contexts, files);
      GoesOnAt(l, contexts, files, p);
      DocIs(l, contexts[n], files);
    }
  }

  /** The first context that has a package. */
  ghost predicate IsFirst(l: Loader, contexts: seq<BuildContext>, files: Files, i: int) {
    0 <= i < |contexts| && HasPackage(l, contexts, files, i)
    && forall j :: 0 <= j < i ==> !HasPackage(l, contexts, files, j)
  }

  lemma FirstsSame(l: Loader, contexts: seq<BuildContext>, files: Files)
    requires contexts != []
    ensures var n := |contexts| - 1;
      forall i :: 0 <= i < n ==> HasPackage(l, contexts[..n], files, i) == HasPackage(l, contexts, files, i)
    ensures var n := |contexts| - 1;
      forall i :: 0 <= i < n ==> IsFirst(l, contexts[..n], files, i) == IsFirst(l, contexts, files, i)
  {
    hide LoadedFor;
    var n := |contexts| - 1;
    assert forall i :: 0 <= i < n ==> HasPackage(l, contexts[..n], files, i) == HasPackage(l, contexts, files, i);
  }

  lemma DocIs(l: Loader, bc: BuildContext, files: Files)
    ensures LoadedFor(l, bc, files).Good? ==>
      var info := LoadedFor(l, bc, files).info;
      DocOf(info, bc) == DocValue(bc, info.synopsis, info.source, Tagged(info.api, bc))
  {
    hide LoadedFor;
  }

  lemma GoesOnAt(l: Loader, contexts: seq<BuildContext>, files: Files, p: Progress)
    requires contexts != [] && !Ends(l, contexts, files, |contexts| - 1)
    requires forall i :: 0 <= i < |contexts| - 1 && HasPackage(l, contexts, files, i) ==>
      p.name == LoadedFor(l, contexts[i], files).info.name
    requires p.docs != [] ==> exists i :: 0 <= i < |contexts| - 1 && HasPackage(l, contexts, files, i)
    ensures var n := |contexts| - 1;
      var r := LoadedFor(l, contexts[n], files);
      && !AnyBroken(l, contexts[n], files) && !r.Fatal? && !r.TooLarge?
      && (r.Good? && p.docs != [] ==> r.info.name == p.name)
  {
    hide LoadedFor;
    var n := |contexts| - 1;
    if p.docs != [] && HasPackage(l, contexts, files, n) {
      var i :| 0 <= i < n && HasPackage(l, contexts, files, i);
      assert !OtherName(l, contexts, files, i, n);
    }
  }

  /** The answer if context `i` is the first that ends the loop. */
  ghost function EndAnswer(l: Loader, contexts: seq<BuildContext>, files: Files, i: nat): Answer
    requires i < |contexts|
  {
    var bc := contexts[i];
    if BreaksAt(l, contexts, files, i) then Answer(Failed(BadMatch), [])
    else
      match LoadedFor(l, bc, files)
      case Fatal(code) => Answer(Failed(Serious(code)), [])
      case TooLarge(info) =>
        Answer(Oversized(info.name, info.imports), [DocValue(ALL, info.synopsis, info.source, Tagged(info.api, bc))])
      case _ => Answer(Failed(TwoNames), [])
  }

  /** If some context ends the loop, the first one that does decides the answer. */
  lemma EndsExactly(l: Loader, contexts: seq<BuildContext>, files: Files, i: nat)
    requires i < |contexts| && Ends(l, contexts, files, i)
    requires forall j :: 0 <= j < i ==> !Ends(l, contexts, files, j)
    ensures Reference(l, contexts, files) == EndAnswer(l, contexts, files, i)
  {
    hide LoadedFor, Ends, AnyBroken, Advance, Run, Documents, Uniform, OversizedDoc;
    var before := contexts[..i];
    forall j | 0 <= j < i
      ensures !Ends(l, before, files, j) && before[j] == contexts[j]
    {
      EndsSame(l, contexts, files, i, j);
    }
    RunCollects(l, before, files);
    NoDocuments(l, before, files);
    var p := Run(l, before, files).p;
    AdvanceCases(l, contexts[i], files, p);
    StopsHere(l, contexts, files, i, p);
    Early(l, contexts, i, files, p);
  }

  lemma StopsHere(l: Loader, contexts: seq<BuildContext>, files: Files, i: nat, p: Progress)
    requires i < |contexts| && Ends(l, contexts, files, i)
    requires forall j :: 0 <= j < i && HasPackage(l, contexts[..i], files, j) ==>
      p.name == LoadedFor(l, contexts[j], files).info.name
    requires p.docs == [] <==> forall j :: 0 <= j < i ==> !HasPackage(l, contexts[..i], files, j)
    ensures BreaksAt(l, contexts, files, i) == AnyBroken(l, contexts[i], files)
    ensures var r := LoadedFor(l, contexts[i], files);
      && (r.TooLarge? ==>
           OversizedDoc(r.info, contexts[i])
           == DocValue(ALL, r.info.synopsis, r.info.source, Tagged(r.info.api, contexts[i])))
      && (!AnyBroken(l, contexts[i], files) && !r.Fatal? && !r.TooLarge? ==>
           r.Good? && p.docs != [] && r.info.name != p.name)
  {
    hide LoadedFor;
    assert forall j :: 0 <= j < i ==> HasPackage(l, contexts[..i], files, j) == HasPackage(l, contexts, files, j);
  }

  /** If no context ends the loop, the package has one document for each context that has one, or
      a single one for all if all contexts have it from the same files. */
  lemma PackageExactly(l: Loader, contexts: seq<BuildContext>, files: Files)
    requires forall i :: 0 <= i < |contexts| ==> !Ends(l, contexts, files, i)
    ensures (forall i :: 0 <= i < |contexts| ==> !HasPackage(l, contexts, files, i)) ==>
      Reference(l, contexts, files) == Answer(NoPackage, [])
    ensures forall i :: IsFirst(l, contexts, files, i) ==>
      var info := LoadedFor(l, contexts[i], files).info;
      && Reference(l, contexts, files).outcome == Package(info.name, info.imports)
      && Reference(l, contexts, files).docs
         == if Uniform(l, contexts, files) then [DocValue(ALL, info.synopsis, info.source, Tagged(info.api, ALL))]
            else Documents(l, contexts, files)
  {
    hide LoadedFor, Ends, Run, Documents, Matching;
    RunCollects(l, contexts, files);
    NoDocuments(l, contexts, files);
    if Uniform(l, contexts, files) {
      assert HasPackage(l, contexts, files, 0);
    }
  }

  // -------------------------------------------------------------------- laws

  lemma SameAdvance(l: Loader, bc: BuildContext, files: Files, files': Files, p: Progress)
    requires SameFor(l, bc, files, files')
    ensures LoadedFor(l, bc, files) == LoadedFor(l, bc, files') && KeyFor(l, bc, files) == KeyFor(l, bc, files')
    ensures Advance(l, bc, files, p) == Advance(l, bc, files', p)
  {
    hide AnyBroken, Matching, DocOf, OversizedDoc, KeyOf;
  }

  lemma SameMemoAdvance(l: Loader, bc: BuildContext, files: Files, files': Files, p: Progress,
                        memo: map<string, DocValue>)
    requires SameFor(l, bc, files, files')
    ensures MemoAdvance(l, bc, files, p, memo) == MemoAdvance(l, bc, files', p, memo)
  {
    hide LoadedFor, AnyBroken, Matching, DocOf, Retag, Advance, KeyFor;
    SameAdvance(l, bc, files, files', p);
  }

  lemma {:induction false} SameRuns(l: Loader, contexts: seq<BuildContext>, files: Files, files': Files)
    requires forall i :: 0 <= i < |contexts| ==> SameFor(l, contexts[i], files, files')
    ensures Run(l, contexts, files) == Run(l, contexts, files')
    ensures MemoRun(l, contexts, files) == MemoRun(l, contexts, files')
  {
    hide SameFor, Advance, MemoAdvance;
    if contexts != [] {
      var n := |contexts| - 1;
      var bc := contexts[n];
      assert SameFor(l, bc, files, files');
      SameRuns(l, contexts[..n], files, files');
      if Run(l, contexts[..n], files).Go? {
        SameAdvance(l, bc, files, files', Run(l, contexts[..n], files).p);
      }
      var m := MemoRun(l, contexts[..n], files);
      if m.MemoGo? {
        SameMemoAdvance(l, bc, files, files', m.p, m.memo);
      }
    }
  }

  /** The context makes no difference between the two sets of files. */
  ghost predicate SameFor(l: Loader, bc: BuildContext, files: Files, files': Files) {
    Matching(l, bc, files) == Matching(l, bc, files') && AnyBroken(l, bc, files) == AnyBroken(l, bc, files')
  }

  lemma SameAnswers(l: Loader, contexts: seq<BuildContext>, files: Files, files': Files)
    requires forall i :: 0 <= i < |contexts| ==> SameFor(l, contexts[i], files, files')
    ensures Reference(l, contexts, files) == Reference(l, contexts, files')
    ensures Memoised(l, contexts, files) == Memoised(l, contexts, files')
  {
    hide AnyBroken, Matching, DocOf, Run, MemoRun, Retag;
    SameRuns(l, contexts, files, files');
    assert Uniform(l, contexts, files) == Uniform(l, contexts, files');
  }

  /** A file that all contexts exclude might as well not be there. */
  lemma ExcludedByAll(l: Loader, contexts: seq<BuildContext>, files: Files, n: string)
    requires n in files && forall i :: 0 <= i < |contexts| ==> l.matches(contexts[i], n, files[n]) == No
    ensures Reference(l, contexts, files) == Reference(l, contexts, files - {n})
    ensures Memoised(l, contexts, files) == Memoised(l, contexts, files - {n})
  {
    forall i | 0 <= i < |contexts|
      ensures SameFor(l, contexts[i], files, files - {n})
    {
      ExcludedBy(l, contexts[i], files, n);
    }
    SameAnswers(l, contexts, files, files - {n});
  }

  /** Nor for the one context that excludes it. */
  lemma ExcludedBy(l: Loader, bc: BuildContext, files: Files, n: string)
    requires n in files && l.matches(bc, n, files[n]) == No
    ensures SameFor(l, bc, files, files - {n}) && LoadedFor(l, bc, files) == LoadedFor(l, bc, files - {n})
  {
    var rest := files - {n};
    assert Matching(l, bc, files) == Matching(l, bc, rest);
    assert forall k :: k in rest ==> k in files && rest[k] == files[k];
    assert forall k :: k in files && k != n ==> k in rest;
    if AnyBroken(l, bc, files) {
      var k :| k in files && l.matches(bc, k, files[k]).Broken?;
      assert k in rest;
    }
  }

  /** If all files match all contexts, everything is loaded once, for all contexts. */
  lemma AllMatch(l: Loader, contexts: seq<BuildContext>, files: Files)
    requires contexts != [] && forall i, n :: 0 <= i < |contexts| && n in files ==>
      l.matches(contexts[i], n, files[n]) == Yes
    ensures Memoised(l, contexts, files) == Reference(l, contexts, files)
    ensures Reference(l, contexts, files)
      == match l.load(files)
         case Fatal(code) => Answer(Failed(Serious(code)), [])
         case TooLarge(info) => Answer(Oversized(info.name, info.imports),
           [DocValue(ALL, info.synopsis, info.source, Tagged(info.api, contexts[0]))])
         case Good(info) => Answer(Package(info.name, info.imports),
           [DocValue(ALL, info.synopsis, info.source, Tagged(info.api, ALL))])
         case _ => Answer(NoPackage, [])
  {
    hide LoadedFor, KeyFor, Memoised, Reference, Tagged, AnyBroken;
    forall i | 0 <= i < |contexts|
      ensures Matching(l, contexts[i], files) == files && LoadedFor(l, contexts[i], files) == l.load(files)
    {
      assert Includes(l, contexts[i], files, files);
      IncludedIs(l, contexts[i], files, files);
      LoadsIncluded(l, contexts[i], files, files);
    }
    MemoMeansReference(l, contexts, files);
    if l.load(files).Fatal? || l.load(files).TooLarge? {
      assert Ends(l, contexts, files, 0);
      EndsExactly(l, contexts, files, 0);
    } else {
      assert forall i :: 0 <= i < |contexts| ==> !Ends(l, contexts, files, i);
      PackageExactly(l, contexts, files);
      if l.load(files).Good? {
        assert IsFirst(l, contexts, files, 0);
      }
    }
  }
}
