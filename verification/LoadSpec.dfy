/** What loading a package for every build context means (internal/fetch/load.go,
    `loadPackage`): each context loaded afresh, and contexts with the same key of matching
    files sharing one load. */
module LoadSpec {
  import opened Basics
  import opened ByteStrings

  type Files = map<string, int>

  datatype BuildContext = BC(goos: string, goarch: string)

  const ALL := BC("all", "all")

  datatype Match = Yes | No | Broken

  /** A symbol as the loader makes it, before it is tagged with a build context. */
  datatype RawSymbol = RawSymbol(meta: int, children: seq<int>)

  datatype Info = Info(name: string, imports: seq<string>, synopsis: string, source: int, api: seq<RawSymbol>)

  /** What `loadPackageForBuildContext` makes of a set of files. */
  datatype Loaded = NotFound | BadPackage | TooLarge(info: Info) | Fatal(code: int) | Good(info: Info)

  /** Build constraint matching and package loading are foreign to this code. */
  datatype Loader = Loader(matches: (BuildContext, string, int) -> Match, load: Files -> Loaded)

  // -------------------------------------------------------------- the results

  datatype SymbolValue = SymbolValue(meta: int, children: seq<int>, bc: BuildContext)
  datatype DocValue = DocValue(bc: BuildContext, synopsis: string, source: int, api: seq<SymbolValue>)

  function Tagged(api: seq<RawSymbol>, bc: BuildContext): (r: seq<SymbolValue>)
    ensures |r| == |api| && forall i :: 0 <= i < |api| ==> r[i] == SymbolValue(api[i].meta, api[i].children, bc)
  {
    seq(|api|, i requires 0 <= i < |api| => SymbolValue(api[i].meta, api[i].children, bc))
  }

  function DocOf(info: Info, bc: BuildContext): DocValue {
    DocValue(bc, info.synopsis, info.source, Tagged(info.api, bc))
  }

  /** The document of a package whose rendering is too large: meant for all contexts, while
      its symbols keep the context that was being loaded. */
  function OversizedDoc(info: Info, bc: BuildContext): DocValue {
    DocValue(ALL, info.synopsis, info.source, Tagged(info.api, bc))
  }

  datatype Failure = BadMatch | Serious(code: int) | TwoNames

  datatype Outcome =
    | Package(name: string, imports: seq<string>)
    | Oversized(name: string, imports: seq<string>)
    | NoPackage
    | Failed(failure: Failure)

  datatype Answer = Answer(outcome: Outcome, docs: seq<DocValue>)

  // ------------------------------------------------- loading afresh each time

  predicate AnyBroken(l: Loader, bc: BuildContext, files: Files) {
    exists n :: n in files && l.matches(bc, n, files[n]).Broken?
  }

  /** `matchingFiles`: the files without those that the context excludes. */
  function Matching(l: Loader, bc: BuildContext, files: Files): (r: Files)
    ensures r.Keys <= files.Keys && forall n :: n in r ==> r[n] == files[n]
    ensures forall n :: n in files ==> (n in r <==> l.matches(bc, n, files[n]) == Yes)
  {
    map n | n in files && l.matches(bc, n, files[n]).Yes? :: files[n]
  }

  datatype Progress = Progress(name: string, imports: seq<string>, docs: seq<DocValue>)

  function LoadedFor(l: Loader, bc: BuildContext, files: Files): Loaded {
    l.load(Matching(l, bc, files))
  }

  /** One build context, loaded afresh. */
  ghost function Advance(l: Loader, bc: BuildContext, files: Files, p: Progress): (r: Step)
  {
    if AnyBroken(l, bc, files) then Stop(Answer(Failed(BadMatch), []))
    else
      match LoadedFor(l, bc, files)
      case NotFound => Go(p)
      case BadPackage => Go(p)
      case TooLarge(info) => Stop(Answer(Oversized(info.name, info.imports), [OversizedDoc(info, bc)]))
      case Fatal(code) => Stop(Answer(Failed(Serious(code)), []))
      case Good(info) =>
        if p.docs != [] && info.name != p.name then Stop(Answer(Failed(TwoNames), []))
        else if p.docs == [] then Go(Progress(info.name, info.imports, [DocOf(info, bc)]))
        else Go(p.(docs := p.docs + [DocOf(info, bc)]))
  }

  datatype Step = Go(p: Progress) | Stop(answer: Answer)

  ghost function Run(l: Loader, contexts: seq<BuildContext>, files: Files): Step {
    if contexts == [] then Go(Progress("", [], []))
    else
      var n := |contexts| - 1;
      match Run(l, contexts[..n], files)
      case Stop(a) => Stop(a)
      case Go(p) => Advance(l, contexts[n], files, p)
  }

  /** Every context succeeds, and all with the same files. */
  ghost predicate Uniform(l: Loader, contexts: seq<BuildContext>, files: Files) {
    && contexts != []
    && (forall i :: 0 <= i < |contexts| ==> LoadedFor(l, contexts[i], files).Good?)
    && (forall i :: 0 <= i < |contexts| ==> Matching(l, contexts[i], files) == Matching(l, contexts[0], files))
  }

  /** The result of loading every context afresh: one document per successful context, or
      a single one for all contexts if they are uniform. */
  ghost function Reference(l: Loader, contexts: seq<BuildContext>, files: Files): Answer {
    match Run(l, contexts, files)
    case Stop(a) => a
    case Go(p) =>
      if p.docs == [] then Answer(NoPackage, [])
      else if Uniform(l, contexts, files) then
        Answer(Package(p.name, p.imports), [DocOf(LoadedFor(l, contexts[0], files).info, ALL)])
      else Answer(Package(p.name, p.imports), p.docs)
  }

  // -------------------------------------------------------------- file keys

  /** `mapKeyForFiles`. */
  ghost predicate IsKey(key: string, names: set<string>) {
    exists s :: SortsSet(s, names) && key == JoinSpace(s)
  }

  predicate GoodFileNames(files: Files) {
    forall n :: n in files ==> GoodName(n)
  }

  lemma KeyUnique(key: string, key': string, names: set<string>)
    requires IsKey(key, names) && IsKey(key', names)
    ensures key == key'
  {
    var s :| SortsSet(s, names) && key == JoinSpace(s);
    var t :| SortsSet(t, names) && key' == JoinSpace(t);
    SortUnique(s, t, names);
  }

  /** Sets of names that are not empty and hold no spaces have different keys. */
  lemma KeyInjective(key: string, a: set<string>, b: set<string>)
    requires IsKey(key, a) && IsKey(key, b)
    requires (forall n :: n in a ==> GoodName(n)) && (forall n :: n in b ==> GoodName(n))
    ensures a == b
  {
    var s :| SortsSet(s, a) && key == JoinSpace(s);
    var t :| SortsSet(t, b) && key == JoinSpace(t);
    assert forall i :: 0 <= i < |s| ==> s[i] in Elements(s);
    assert forall i :: 0 <= i < |t| ==> t[i] in Elements(t);
    JoinInjective(s, t);
  }

  /** With spaces in file names two different sets can share a key. */
  lemma KeyCollision()
    ensures IsKey("a.go b.go", {"a.go b.go"}) && IsKey("a.go b.go", {"a.go", "b.go"})
  {
    var s, t := ["a.go b.go"], ["a.go", "b.go"];
    assert SortsSet(s, {"a.go b.go"}) && JoinSpace(s) == "a.go b.go";
    assert Before("a.go", "b.go");
    assert Elements(t) == {"a.go", "b.go"} by { assert t[0] in t && t[1] in t; }
    assert t[1..] == ["b.go"];
    assert SortsSet(t, {"a.go", "b.go"}) && JoinSpace(t) == "a.go" + " " + "b.go";
  }

  // --------------------------------------------------- facts about fresh runs

  lemma {:induction false} RunLengths(l: Loader, contexts: seq<BuildContext>, files: Files)
    requires Run(l, contexts, files).Go?
    ensures |Run(l, contexts, files).p.docs| <= |contexts|
    ensures |Run(l, contexts, files).p.docs| == |contexts| <==>
      forall i :: 0 <= i < |contexts| ==> LoadedFor(l, contexts[i], files).Good?
    ensures |Run(l, contexts, files).p.docs| == |contexts| > 0 ==>
      Run(l, contexts, files).p.docs[0] == DocOf(LoadedFor(l, contexts[0], files).info, contexts[0])
  {
    hide LoadedFor, AnyBroken;
    if contexts != [] {
      var n := |contexts| - 1;
      RunLengths(l, contexts[..n], files);
      assert forall i :: 0 <= i < n ==> contexts[..n][i] == contexts[i];
    }
  }

  lemma RunStep(l: Loader, contexts: seq<BuildContext>, i: nat, files: Files)
    requires i < |contexts|
    ensures Run(l, contexts[..i], files).Stop? ==> Run(l, contexts[..i + 1], files) == Run(l, contexts[..i], files)
    ensures Run(l, contexts[..i], files).Go? ==>
      Run(l, contexts[..i + 1], files) == Advance(l, contexts[i], files, Run(l, contexts[..i], files).p)
  {
    assert contexts[..i + 1][..i] == contexts[..i];
  }

  lemma {:induction false} StopIsFinal(l: Loader, contexts: seq<BuildContext>, i: nat, files: Files)
    requires i <= |contexts| && Run(l, contexts[..i], files).Stop?
    ensures Run(l, contexts, files) == Run(l, contexts[..i], files)
    decreases |contexts| - i
  {
    if i == |contexts| {
      assert contexts[..i] == contexts;
    } else {
      RunStep(l, contexts, i, files);
      StopIsFinal(l, contexts, i + 1, files);
    }
  }

  lemma {:induction false} DocsOfSameName(l: Loader, contexts: seq<BuildContext>, files: Files, j: nat)
    requires Run(l, contexts, files).Go? && j < |contexts| && LoadedFor(l, contexts[j], files).Good?
    ensures Run(l, contexts, files).p.docs != [] && !AnyBroken(l, contexts[j], files)
    ensures Run(l, contexts, files).p.name == LoadedFor(l, contexts[j], files).info.name
  {
    hide LoadedFor, AnyBroken;
    var n := |contexts| - 1;
    if j < n {
      DocsOfSameName(l, contexts[..n], files, j);
    }
  }

  lemma {:induction false} RunTags(l: Loader, contexts: seq<BuildContext>, files: Files)
    requires Run(l, contexts, files).Go?
    ensures forall d :: d in Run(l, contexts, files).p.docs ==> d.bc in contexts && OwnTags(d)
  {
    hide LoadedFor, AnyBroken;
    if contexts != [] {
      RunTags(l, contexts[..|contexts| - 1], files);
    }
  }

  /** Every symbol of the document carries the document's own build context. */
  predicate OwnTags(d: DocValue) {
    forall i :: 0 <= i < |d.api| ==> d.api[i].bc == d.bc
  }

  /** The documents of a package carry their own build contexts throughout, and there is one
      for all contexts exactly when every context loads and all match the same files. */
  lemma AnswerTags(l: Loader, contexts: seq<BuildContext>, files: Files)
    requires Reference(l, contexts, files).outcome.Package? && ALL !in contexts
    ensures forall d :: d in Reference(l, contexts, files).docs ==> OwnTags(d)
    ensures (exists d :: d in Reference(l, contexts, files).docs && d.bc == ALL) <==> Uniform(l, contexts, files)
    ensures Uniform(l, contexts, files) ==> |Reference(l, contexts, files).docs| == 1
  {
    hide Run, LoadedFor, Uniform;
    StopsWithoutPackage(l, contexts, files);
    RunTags(l, contexts, files);
    var docs := Reference(l, contexts, files).docs;
    if Uniform(l, contexts, files) {
      assert docs[0] in docs;
    }
  }

  lemma {:induction false} StopsWithoutPackage(l: Loader, contexts: seq<BuildContext>, files: Files)
    ensures Run(l, contexts, files).Stop? ==> !Run(l, contexts, files).answer.outcome.Package?
  {
    hide LoadedFor, AnyBroken, OversizedDoc, DocOf;
    if contexts != [] {
      StopsWithoutPackage(l, contexts[..|contexts| - 1], files);
    }
  }

  lemma AdvanceCases(l: Loader, bc: BuildContext, files: Files, p: Progress)
    ensures AnyBroken(l, bc, files) ==> Advance(l, bc, files, p) == Stop(Answer(Failed(BadMatch), []))
    ensures !AnyBroken(l, bc, files) ==>
      var r := LoadedFor(l, bc, files);
      && (r.NotFound? || r.BadPackage? ==> Advance(l, bc, files, p) == Go(p))
      && (r.TooLarge? ==>
           Advance(l, bc, files, p) == Stop(Answer(Oversized(r.info.name, r.info.imports), [OversizedDoc(r.info, bc)])))
      && (r.Fatal? ==> Advance(l, bc, files, p) == Stop(Answer(Failed(Serious(r.code)), [])))
      && (r.Good? && p.docs == [] ==>
           Advance(l, bc, files, p) == Go(Progress(r.info.name, r.info.imports, [DocOf(r.info, bc)])))
      && (r.Good? && p.docs != [] && r.info.name != p.name ==>
           Advance(l, bc, files, p) == Stop(Answer(Failed(TwoNames), [])))
      && (r.Good? && p.docs != [] && r.info.name == p.name ==>
           Advance(l, bc, files, p) == Go(p.(docs := p.docs + [DocOf(r.info, bc)])))
  {
    hide AnyBroken, LoadedFor, OversizedDoc, DocOf;
  }

  /** An early return is the answer. */
  lemma Early(l: Loader, contexts: seq<BuildContext>, i: nat, files: Files, p: Progress)
    requires i < |contexts| && Run(l, contexts[..i], files) == Go(p) && Advance(l, contexts[i], files, p).Stop?
    ensures Reference(l, contexts, files) == Advance(l, contexts[i], files, p).answer
  {
    hide Advance, Run, Uniform;
    RunStep(l, contexts, i, files);
    StopIsFinal(l, contexts, i + 1, files);
  }

  // ------------------------------------------------------ documents too large

  /** The loop stops at context `i` because its rendering is too large, with symbols. */
  ghost predicate StopsTooLarge(l: Loader, contexts: seq<BuildContext>, files: Files, i: nat)
    requires i < |contexts|
  {
    && Run(l, contexts[..i], files).Go? && !AnyBroken(l, contexts[i], files)
    && LoadedFor(l, contexts[i], files).TooLarge? && LoadedFor(l, contexts[i], files).info.api != []
  }

  lemma OversizedTags(info: Info, bc: BuildContext)
    ensures OwnTags(OversizedDoc(info, bc)) <==> bc == ALL || info.api == []
  {
    if info.api != [] {
      assert OversizedDoc(info, bc).api[0].bc == bc;
    }
  }

  /** Where a run stops, and with what. */
  lemma {:induction false} StopsAt(l: Loader, contexts: seq<BuildContext>, files: Files) returns (i: nat)
    requires Run(l, contexts, files).Stop?
    ensures i < |contexts| && Run(l, contexts[..i], files).Go?
    ensures Advance(l, contexts[i], files, Run(l, contexts[..i], files).p) == Run(l, contexts, files)
  {
    hide Advance;
    var n := |contexts| - 1;
    if Run(l, contexts[..n], files).Stop? {
      i := StopsAt(l, contexts[..n], files);
      assert contexts[..n][..i] == contexts[..i];
    } else {
      i := n;
    }
  }

  lemma TooLargeStops(l: Loader, contexts: seq<BuildContext>, files: Files, i: nat)
    requires i < |contexts| && StopsTooLarge(l, contexts, files, i)
    ensures Run(l, contexts, files).Stop?
    ensures Run(l, contexts, files).answer.docs == [OversizedDoc(LoadedFor(l, contexts[i], files).info, contexts[i])]
  {
    hide Run, Advance, OversizedDoc, AnyBroken, LoadedFor;
    AdvanceCases(l, contexts[i], files, Run(l, contexts[..i], files).p);
    RunStep(l, contexts, i, files);
    StopIsFinal(l, contexts, i + 1, files);
  }

  lemma StopTags(l: Loader, bc: BuildContext, files: Files, p: Progress)
    requires Advance(l, bc, files, p).Stop? && bc != ALL
    ensures (forall d :: d in Advance(l, bc, files, p).answer.docs ==> OwnTags(d))
      <==> AnyBroken(l, bc, files) || !LoadedFor(l, bc, files).TooLarge? || LoadedFor(l, bc, files).info.api == []
  {
    hide Advance, OversizedDoc, AnyBroken, LoadedFor, OwnTags;
    AdvanceCases(l, bc, files, p);
    if !AnyBroken(l, bc, files) && LoadedFor(l, bc, files).TooLarge? {
      var info := LoadedFor(l, bc, files).info;
      OversizedTags(info, bc);
      assert OversizedDoc(info, bc) in [OversizedDoc(info, bc)];
    }
  }

  lemma AllDocTags(info: Info)
    ensures OwnTags(DocOf(info, ALL))
  {
  }

  lemma GoTags(l: Loader, contexts: seq<BuildContext>, files: Files)
    requires Run(l, contexts, files).Go?
    ensures forall d :: d in Reference(l, contexts, files).docs ==> OwnTags(d)
  {
    hide Run, OwnTags, DocOf, AnyBroken, Matching, Advance;
    RunTags(l, contexts, files);
    if Uniform(l, contexts, files) {
      AllDocTags(LoadedFor(l, contexts[0], files).info);
    }
  }

  /** All documents carry their own contexts throughout, except exactly when the loop stops at a
      document that is too large and has symbols. */
  lemma TagsExactly(l: Loader, contexts: seq<BuildContext>, files: Files)
    requires ALL !in contexts
    ensures (forall d :: d in Reference(l, contexts, files).docs ==> OwnTags(d))
      <==> !exists i :: 0 <= i < |contexts| && StopsTooLarge(l, contexts, files, i)
  {
    hide Run, LoadedFor, Uniform, Advance, OwnTags, OversizedDoc, AnyBroken, DocOf;
    forall i | 0 <= i < |contexts| && StopsTooLarge(l, contexts, files, i)
      ensures exists d :: d in Reference(l, contexts, files).docs && !OwnTags(d)
    {
      TooLargeStops(l, contexts, files, i);
      var info := LoadedFor(l, contexts[i], files).info;
      OversizedTags(info, contexts[i]);
      assert OversizedDoc(info, contexts[i]) in Reference(l, contexts, files).docs;
    }
    if Run(l, contexts, files).Go? {
      GoTags(l, contexts, files);
    } else {
      var i := StopsAt(l, contexts, files);
      assert StopsTooLarge(l, contexts, files, i) || AnyBroken(l, contexts[i], files)
          || !LoadedFor(l, contexts[i], files).TooLarge?
        || LoadedFor(l, contexts[i], files).info.api == [];
      StopTags(l, contexts[i], files, Run(l, contexts[..i], files).p);
    }
  }

  /** A package that is too large, with one symbol: the document is for all contexts and its
      symbol is not. */
  lemma OversizedExample()
    ensures var info := Info("p", [], "", 0, [RawSymbol(0, [])]);
      var l := Loader((bc, n, c) => Yes, f => TooLarge(info));
      var linux := BC("linux", "amd64");
      Reference(l, [linux], map[]) == Answer(Oversized("p", []), [DocValue(ALL, "", 0, [SymbolValue(0, [], linux)])])
  {
    var info := Info("p", [], "", 0, [RawSymbol(0, [])]);
    var l := Loader((bc, n, c) => Yes, f => TooLarge(info));
    var linux := BC("linux", "amd64");
    AdvanceCases(l, linux, map[], Progress("", [], []));
    assert [linux][..0] == [];
    assert Run(l, [], map[]) == Go(Progress("", [], []));
    assert Tagged(info.api, linux) == [SymbolValue(0, [], linux)];
  }

  // --------------------------------------------------------------- the memo

  function Retag(d: DocValue, bc: BuildContext): DocValue {
    DocValue(bc, d.synopsis, d.source, seq(|d.api|, i requires 0 <= i < |d.api| => d.api[i].(bc := bc)))
  }

  lemma RetagIsDocOf(info: Info, a: BuildContext, b: BuildContext)
    ensures Retag(DocOf(info, a), b) == DocOf(info, b)
  {
    assert Retag(DocOf(info, a), b).api == Tagged(info.api, b);
  }

  ghost function KeyOf(names: set<string>): (key: string)
    ensures IsKey(key, names)
  {
    KeyExists(names);
    var key :| IsKey(key, names);
    key
  }

  lemma KeyExists(names: set<string>)
    ensures exists key :: IsKey(key, names)
  {
    var s := SortExists(names);
    assert IsKey(JoinSpace(s), names);
  }

  ghost function KeyFor(l: Loader, bc: BuildContext, files: Files): string {
    KeyOf(Matching(l, bc, files).Keys)
  }

  datatype MemoStep = MemoGo(p: Progress, memo: map<string, DocValue>) | MemoStop(answer: Answer)

  /** One build context, with the documents of earlier ones by key. */
  ghost function MemoAdvance(l: Loader, bc: BuildContext, files: Files, p: Progress, memo: map<string,
                             DocValue>): MemoStep {
    if AnyBroken(l, bc, files) then MemoStop(Answer(Failed(BadMatch), []))
    else
      var key := KeyFor(l, bc, files);
      if key in memo then MemoGo(p.(docs := p.docs + [Retag(memo[key], bc)]), memo)
      else
        match Advance(l, bc, files, p)
        case Stop(a) => MemoStop(a)
        case Go(p') => MemoGo(p', if LoadedFor(l, bc, files).Good?
          then memo[key := DocOf(LoadedFor(l, bc, files).info, bc)] else memo)
  }

  ghost function MemoRun(l: Loader, contexts: seq<BuildContext>, files: Files): MemoStep {
    if contexts == [] then MemoGo(Progress("", [], []), map[])
    else
      var n := |contexts| - 1;
      match MemoRun(l, contexts[..n], files)
      case MemoStop(a) => MemoStop(a)
      case MemoGo(p, memo) => MemoAdvance(l, contexts[n], files, p, memo)
  }

  /** What `loadPackage` returns. */
  ghost function Memoised(l: Loader, contexts: seq<BuildContext>, files: Files): Answer {
    match MemoRun(l, contexts, files)
    case MemoStop(a) => a
    case MemoGo(p, memo) =>
      if p.docs == [] then Answer(NoPackage, [])
      else if |memo| == 1 && |p.docs| == |contexts| then Answer(Package(p.name, p.imports), [Retag(p.docs[0], ALL)])
      else Answer(Package(p.name, p.imports), p.docs)
  }

  // ------------------------------------------- when the memo changes nothing

  /** Two contexts with the same key match the same files. */
  lemma SameKeySameFiles(l: Loader, files: Files, a: BuildContext, b: BuildContext, key: string)
    requires GoodFileNames(files) && IsKey(key, Matching(l, a, files).Keys) && IsKey(key, Matching(l, b, files).Keys)
    ensures Matching(l, a, files) == Matching(l, b, files)
  {
    KeyInjective(key, Matching(l, a, files).Keys, Matching(l, b, files).Keys);
  }

  /** No context up to `i` makes matching fail. */
  ghost predicate Reached(l: Loader, contexts: seq<BuildContext>, files: Files, i: nat)
    requires i < |contexts|
  {
    forall j :: 0 <= j <= i ==> !AnyBroken(l, contexts[j], files)
  }

  /** Contexts `i` and `j` match different files under the same key. */
  ghost predicate Clash(l: Loader, contexts: seq<BuildContext>, files: Files, i: nat, j: nat)
    requires i < j < |contexts|
  {
    Reached(l, contexts, files, j) && KeyFor(l, contexts[i], files) == KeyFor(l, contexts[j], files)
    && Matching(l, contexts[i], files) != Matching(l, contexts[j], files)
  }

  /** Contexts with the same key match the same files. */
  ghost predicate KeysDistinguish(l: Loader, contexts: seq<BuildContext>, files: Files) {
    forall i, j :: 0 <= i < j < |contexts| ==> !Clash(l, contexts, files, i, j)
  }

  /** File names that are not empty and hold no spaces make sure of that. */
  lemma GoodNamesDistinguish(l: Loader, contexts: seq<BuildContext>, files: Files)
    requires GoodFileNames(files)
    ensures KeysDistinguish(l, contexts, files)
  {
    hide Reached, IsKey, GoodFileNames;
    forall i, j | 0 <= i < j < |contexts|
      ensures !Clash(l, contexts, files, i, j)
    {
      if KeyFor(l, contexts[i], files) == KeyFor(l, contexts[j], files) {
        SameKeySameFiles(l, files, contexts[i], contexts[j], KeyFor(l, contexts[i], files));
      }
    }
  }

  lemma ClashPrefix(l: Loader, contexts: seq<BuildContext>, files: Files, n: nat, i: nat, j: nat)
    requires i < j < n <= |contexts|
    ensures Clash(l, contexts[..n], files, i, j) == Clash(l, contexts, files, i, j)
  {
    hide AnyBroken, KeyFor, Matching;
    assert forall k :: 0 <= k < n ==> contexts[..n][k] == contexts[k];
  }

  lemma DistinguishPrefix(l: Loader, contexts: seq<BuildContext>, files: Files, n: nat)
    requires KeysDistinguish(l, contexts, files) && n <= |contexts|
    ensures KeysDistinguish(l, contexts[..n], files)
  {
    hide Clash;
    forall i, j | 0 <= i < j < n
      ensures !Clash(l, contexts[..n], files, i, j)
    {
      ClashPrefix(l, contexts, files, n, i, j);
    }
  }

  /** What the memo holds under a key is the document of context `j`. */
  ghost predicate Recalls(l: Loader, contexts: seq<BuildContext>, files: Files, memo: map<string, DocValue>,
                          key: string, j: nat)
    requires j < |contexts|
  {
    key in memo && KeyFor(l, contexts[j], files) == key && LoadedFor(l, contexts[j], files).Good?
    && memo[key] == DocOf(LoadedFor(l, contexts[j], files).info, contexts[j])
  }

  ghost predicate Remembers(l: Loader, contexts: seq<BuildContext>, files: Files, memo: map<string, DocValue>) {
    && (forall key :: key in memo ==> exists j :: 0 <= j < |contexts| && Recalls(l, contexts, files, memo, key, j))
    && (forall j :: 0 <= j < |contexts| && LoadedFor(l, contexts[j], files).Good? ==>
         KeyFor(l, contexts[j], files) in memo)
    && (forall j :: 0 <= j < |contexts| ==> !AnyBroken(l, contexts[j], files))
  }

  lemma RemembersKept(l: Loader, contexts: seq<BuildContext>, files: Files, memo: map<string, DocValue>)
    requires contexts != [] && Remembers(l, contexts[..|contexts| - 1], files, memo)
    requires var bc := contexts[|contexts| - 1];
      !AnyBroken(l, bc, files) && (LoadedFor(l, bc, files).Good? ==> KeyFor(l, bc, files) in memo)
    ensures Remembers(l, contexts, files, memo)
  {
    hide LoadedFor, KeyFor, AnyBroken, DocOf;
    var n := |contexts| - 1;
    forall key | key in memo
      ensures exists j :: 0 <= j < |contexts| && Recalls(l, contexts, files, memo, key, j)
    {
      var j :| 0 <= j < n && Recalls(l, contexts[..n], files, memo, key, j);
      assert contexts[..n][j] == contexts[j];
      assert Recalls(l, contexts, files, memo, key, j);
    }
    assert forall j :: 0 <= j < n ==> contexts[..n][j] == contexts[j];
  }

  lemma RemembersNew(l: Loader, contexts: seq<BuildContext>, files: Files, memo: map<string, DocValue>)
    requires contexts != [] && Remembers(l, contexts[..|contexts| - 1], files, memo)
    requires var bc := contexts[|contexts| - 1];
      !AnyBroken(l, bc, files) && LoadedFor(l, bc, files).Good? && KeyFor(l, bc, files) !in memo
    ensures var bc := contexts[|contexts| - 1];
      Remembers(l, contexts, files, memo[KeyFor(l, bc, files) := DocOf(LoadedFor(l, bc, files).info, bc)])
  {
    hide LoadedFor, KeyFor, AnyBroken, DocOf;
    var n := |contexts| - 1;
    var bc := contexts[n];
    var memo' := memo[KeyFor(l, bc, files) := DocOf(LoadedFor(l, bc, files).info, bc)];
    forall key | key in memo'
      ensures exists j :: 0 <= j < |contexts| && Recalls(l, contexts, files, memo', key, j)
    {
      if key in memo {
        var j :| 0 <= j < n && Recalls(l, contexts[..n], files, memo, key, j);
        assert contexts[..n][j] == contexts[j];
        assert Recalls(l, contexts, files, memo', key, j);
      } else {
        assert Recalls(l, contexts, files, memo', key, n);
      }
    }
    assert forall j :: 0 <= j < n ==> contexts[..n][j] == contexts[j];
  }

  /** A key that is found stands for the files of the present context. */
  lemma HitLoads(l: Loader, contexts: seq<BuildContext>, files: Files, memo: map<string, DocValue>)
    requires contexts != [] && Remembers(l, contexts[..|contexts| - 1], files, memo)
    requires KeysDistinguish(l, contexts, files)
    requires !AnyBroken(l, contexts[|contexts| - 1], files) && KeyFor(l, contexts[|contexts| - 1], files) in memo
    requires Run(l, contexts[..|contexts| - 1], files).Go?
    ensures var bc, p := contexts[|contexts| - 1], Run(l, contexts[..|contexts| - 1], files).p;
      && LoadedFor(l, bc, files).Good? && p.docs != [] && p.name == LoadedFor(l, bc, files).info.name
      && Retag(memo[KeyFor(l, bc, files)], bc) == DocOf(LoadedFor(l, bc, files).info, bc)
  {
    hide KeyFor, AnyBroken, DocOf, Matching, Run, Retag;
    var n := |contexts| - 1;
    var bc := contexts[n];
    var j :| 0 <= j < n && Recalls(l, contexts[..n], files, memo, KeyFor(l, bc, files), j);
    assert forall k :: 0 <= k < n ==> contexts[..n][k] == contexts[k];
    assert !Clash(l, contexts, files, j, n);
    assert Matching(l, contexts[j], files) == Matching(l, bc, files);
    DocsOfSameName(l, contexts[..n], files, j);
    RetagIsDocOf(LoadedFor(l, bc, files).info, contexts[j], bc);
  }

  lemma MemoStart(l: Loader, files: Files)
    ensures Remembers(l, [], files, map[]) && MemoRun(l, [], files) == MemoGo(Progress("", [], []), map[])
    ensures Run(l, [], files) == Go(Progress("", [], []))
  {
  }

  /** Step by step the memo changes nothing. */
  lemma {:induction false} MemoAgrees(l: Loader, contexts: seq<BuildContext>, files: Files)
    requires KeysDistinguish(l, contexts, files)
    ensures MemoRun(l, contexts, files).MemoStop? ==>
      Run(l, contexts, files) == Stop(MemoRun(l, contexts, files).answer)
    ensures MemoRun(l, contexts, files).MemoGo? ==>
      Run(l, contexts, files) == Go(MemoRun(l, contexts, files).p)
        && Remembers(l, contexts, files, MemoRun(l, contexts, files).memo)
  {
    hide KeysDistinguish, Remembers, LoadedFor, KeyFor, AnyBroken, DocOf, Retag, Advance;
    MemoStart(l, files);
    if contexts != [] {
      var n := |contexts| - 1;
      var bc := contexts[n];
      DistinguishPrefix(l, contexts, files, n);
      MemoAgrees(l, contexts[..n], files);
      if MemoRun(l, contexts[..n], files).MemoGo? {
        var p, memo := MemoRun(l, contexts[..n], files).p, MemoRun(l, contexts[..n], files).memo;
        AdvanceCases(l, bc, files, p);
        if !AnyBroken(l, bc, files) {
          if KeyFor(l, bc, files) in memo {
            HitLoads(l, contexts, files, memo);
            RemembersKept(l, contexts, files, memo);
          } else if LoadedFor(l, bc, files).Good? {
            RemembersNew(l, contexts, files, memo);
          } else {
            RemembersKept(l, contexts, files, memo);
          }
        }
      }
    }
  }

  lemma OneKey(l: Loader, contexts: seq<BuildContext>, files: Files, memo: map<string, DocValue>)
    requires Remembers(l, contexts, files, memo) && KeysDistinguish(l, contexts, files) && contexts != []
    requires forall i :: 0 <= i < |contexts| ==> LoadedFor(l, contexts[i], files).Good?
    ensures |memo| == 1 <==> Uniform(l, contexts, files)
  {
    hide KeyFor, AnyBroken, LoadedFor, Matching, DocOf;
    var first := KeyFor(l, contexts[0], files);
    assert first in memo && |memo| == |memo.Keys|;
    if |memo| == 1 {
      OnlyOne(memo.Keys, first);
      forall i | 0 <= i < |contexts|
        ensures Matching(l, contexts[i], files) == Matching(l, contexts[0], files)
      {
        assert KeyFor(l, contexts[i], files) in memo.Keys;
        if i > 0 {
          assert !Clash(l, contexts, files, 0, i);
        }
      }
    }
    if Uniform(l, contexts, files) {
      forall key | key in memo
        ensures key == first
      {
        var j :| 0 <= j < |contexts| && Recalls(l, contexts, files, memo, key, j);
        SameMatchingSameKey(l, contexts[j], contexts[0], files);
      }
      assert memo.Keys == {first};
    }
  }

  lemma OnlyOne(s: set<string>, x: string)
    requires |s| == 1 && x in s
    ensures s == {x}
  {
    assert |s - {x}| == 0;
  }

  lemma SameMatchingSameKey(l: Loader, a: BuildContext, b: BuildContext, files: Files)
    requires Matching(l, a, files) == Matching(l, b, files)
    ensures KeyFor(l, a, files) == KeyFor(l, b, files)
  {
  }

  /** If contexts with the same key match the same files, the memo changes nothing at all. */
  lemma MemoMeansReference(l: Loader, contexts: seq<BuildContext>, files: Files)
    requires KeysDistinguish(l, contexts, files)
    ensures Memoised(l, contexts, files) == Reference(l, contexts, files)
  {
    hide KeysDistinguish, Remembers, LoadedFor, KeyFor, AnyBroken, DocOf, Retag, Advance, Run, MemoRun, Uniform;
    MemoAgrees(l, contexts, files);
    if MemoRun(l, contexts, files).MemoGo? {
      var p, memo := MemoRun(l, contexts, files).p, MemoRun(l, contexts, files).memo;
      RunLengths(l, contexts, files);
      if |p.docs| == |contexts| > 0 {
        OneKey(l, contexts, files, memo);
        RetagIsDocOf(LoadedFor(l, contexts[0], files).info, contexts[0], ALL);
      } else if p.docs != [] {
        NotUniform(l, contexts, files);
      }
    }
  }

  lemma NotUniform(l: Loader, contexts: seq<BuildContext>, files: Files)
    requires Run(l, contexts, files).Go? && |Run(l, contexts, files).p.docs| != |contexts|
    ensures !Uniform(l, contexts, files)
  {
    hide LoadedFor, Run, Matching;
    RunLengths(l, contexts, files);
  }

  // --------------------------------------------------- when it changes something

  /** The first clash. */
  lemma {:induction false} FirstClash(l: Loader, contexts: seq<BuildContext>, files: Files) returns (i: nat, j: nat)
    requires !KeysDistinguish(l, contexts, files)
    ensures i < j < |contexts| && Clash(l, contexts, files, i, j) && KeysDistinguish(l, contexts[..j], files)
  {
    hide Clash;
    var n := |contexts| - 1;
    if KeysDistinguish(l, contexts[..n], files) {
      forall a, b | 0 <= a < b < n
        ensures !Clash(l, contexts, files, a, b)
      {
        ClashPrefix(l, contexts, files, n, a, b);
      }
      i, j :| 0 <= i < j < |contexts| && Clash(l, contexts, files, i, j);
    } else {
      i, j := FirstClash(l, contexts[..n], files);
      ClashPrefix(l, contexts, files, n, i, j);
      assert contexts[..n][..j] == contexts[..j];
    }
  }

  const SOMETHING := Info("p", [], "", 0, [])

  /** A loader that loads one set of files, fails for another and finds nothing else. */
  function Telling(good: Files, bad: Files): Files -> Loaded {
    f => if f == bad then Fatal(1) else if f == good then Good(SOMETHING) else NotFound
  }

  /** Before the second set of files comes up, loading afresh goes on. */
  lemma {:induction false} GoesOn(l: Loader, contexts: seq<BuildContext>, files: Files, good: Files, bad: Files)
    requires l.load == Telling(good, bad)
    requires forall k :: 0 <= k < |contexts| ==>
      !AnyBroken(l, contexts[k], files) && Matching(l, contexts[k], files) != bad
    ensures Run(l, contexts, files).Go?
    ensures Run(l, contexts, files).p.docs != [] ==> Run(l, contexts, files).p.name == "p"
  {
    hide AnyBroken, Matching, DocOf;
    if contexts != [] {
      GoesOn(l, contexts[..|contexts| - 1], files, good, bad);
    }
  }

  lemma ReferenceFails(l: Loader, contexts: seq<BuildContext>, files: Files, j: nat, good: Files)
    requires j < |contexts| && l.load == Telling(good, Matching(l, contexts[j], files))
    requires Reached(l, contexts, files, j)
    requires forall k :: 0 <= k < j ==> Matching(l, contexts[k], files) != Matching(l, contexts[j], files)
    ensures Reference(l, contexts, files) == Answer(Failed(Serious(1)), [])
  {
    hide AnyBroken, Matching, Run, Advance;
    var bad := Matching(l, contexts[j], files);
    assert forall k :: 0 <= k < j ==> contexts[..j][k] == contexts[k];
    GoesOn(l, contexts[..j], files, good, bad);
    AdvanceCases(l, contexts[j], files, Run(l, contexts[..j], files).p);
    Early(l, contexts, j, files, Run(l, contexts[..j], files).p);
  }

  /** With the memo the failing set of files is never loaded: after context `i` its key is taken. */
  lemma {:induction false} MemoGoesOn(l: Loader, contexts: seq<BuildContext>, files: Files, i: nat, good: Files,
                                      bad: Files)
    requires l.load == Telling(good, bad) && good != bad
    requires i < |contexts| ==> Matching(l, contexts[i], files) == good
    requires forall k :: 0 <= k < |contexts| && Matching(l, contexts[k], files) == bad ==>
      i < k && KeyFor(l, contexts[k], files) == KeyOf(good.Keys)
    ensures MemoRun(l, contexts, files).MemoStop? ==> MemoRun(l, contexts, files).answer == Answer(Failed(BadMatch), [])
    ensures MemoRun(l, contexts, files).MemoGo? ==>
      var p, memo := MemoRun(l, contexts, files).p, MemoRun(l, contexts, files).memo;
      (p.docs != [] ==> p.name == "p") && (i < |contexts| ==> KeyOf(good.Keys) in memo)
        && (memo != map[] ==> p.docs != [])
  {
    hide *;
    MemoFirst(l, contexts, files);
    if contexts != [] {
      var n := |contexts| - 1;
      MemoGoesOn(l, contexts[..n], files, i, good, bad);
      if MemoRun(l, contexts[..n], files).MemoGo? {
        var p, memo := MemoRun(l, contexts[..n], files).p, MemoRun(l, contexts[..n], files).memo;
        MemoStepGoesOn(l, contexts[n], files, p, memo, good, bad);
      }
    }
  }

  lemma MemoFirst(l: Loader, contexts: seq<BuildContext>, files: Files)
    ensures contexts == [] ==> MemoRun(l, contexts, files) == MemoGo(Progress("", [], []), map[])
    ensures contexts != [] ==>
      var n := |contexts| - 1;
      var before := MemoRun(l, contexts[..n], files);
      MemoRun(l, contexts, files)
      == if before.MemoStop? then before else MemoAdvance(l, contexts[n], files, before.p, before.memo)
  {
    hide MemoAdvance;
  }

  lemma MemoStepGoesOn(l: Loader, bc: BuildContext, files: Files, p: Progress, memo: map<string, DocValue>, good: Files,
                       bad: Files)
    requires l.load == Telling(good, bad) && good != bad
    requires (p.docs != [] ==> p.name == "p") && (memo != map[] ==> p.docs != [])
    requires Matching(l, bc, files) == bad ==> KeyFor(l, bc, files) in memo
    ensures var r := MemoAdvance(l, bc, files, p, memo);
      && (r.MemoStop? ==> r.answer == Answer(Failed(BadMatch), []))
      && (r.MemoGo? ==>
           && (r.p.docs != [] ==> r.p.name == "p") && (r.memo != map[] ==> r.p.docs != [])
           && memo.Keys <= r.memo.Keys && (Matching(l, bc, files) == good ==> KeyOf(good.Keys) in r.memo))
  {
    hide AnyBroken, Matching, DocOf, Retag, Advance, KeyOf;
    AdvanceCases(l, bc, files, p);
  }

  /** Where two contexts clash, some way of loading tells the difference: an error goes unseen. */
  lemma ClashShows(l: Loader, contexts: seq<BuildContext>, files: Files) returns (l': Loader)
    requires !KeysDistinguish(l, contexts, files)
    ensures l'.matches == l.matches && Memoised(l', contexts, files) != Reference(l', contexts, files)
  {
    hide KeyOf, AnyBroken, MemoRun, Reference;
    var i, j := FirstClash(l, contexts, files);
    var good, bad := Matching(l, contexts[i], files), Matching(l, contexts[j], files);
    l' := Loader(l.matches, Telling(good, bad));
    forall k | 0 <= k < j
      ensures Matching(l, contexts[k], files) != bad
    {
      if k != i && Matching(l, contexts[k], files) == bad {
        NoEarlierClash(l, contexts, files, j, if k < i then k else i, if k < i then i else k);
      }
    }
    SameMatching(l, l', files, contexts);
    ReferenceFails(l', contexts, files, j, good);
    MemoGoesOn(l', contexts, files, i, good, bad);
  }

  lemma NoEarlierClash(l: Loader, contexts: seq<BuildContext>, files: Files, j: nat, a: nat, b: nat)
    requires a < b < j < |contexts| && KeysDistinguish(l, contexts[..j], files) && Reached(l, contexts, files, j)
    ensures KeyFor(l, contexts[a], files) == KeyFor(l, contexts[b], files) ==>
      Matching(l, contexts[a], files) == Matching(l, contexts[b], files)
  {
    hide AnyBroken, KeyFor, Matching;
    assert !Clash(l, contexts[..j], files, a, b);
    ClashPrefix(l, contexts, files, j, a, b);
  }

  lemma SameMatching(l: Loader, l': Loader, files: Files, contexts: seq<BuildContext>)
    requires l.matches == l'.matches
    ensures forall bc ::
      Matching(l, bc, files) == Matching(l', bc, files) && KeyFor(l, bc, files) == KeyFor(l', bc, files)
    ensures forall bc :: AnyBroken(l, bc, files) == AnyBroken(l', bc, files)
  {
    forall bc
      ensures Matching(l, bc, files) == Matching(l', bc, files)
    {
    }
  }

  ghost predicate AgreeFor(l: Loader, load: Files -> Loaded, contexts: seq<BuildContext>, files: Files) {
    Memoised(Loader(l.matches, load), contexts, files) == Reference(Loader(l.matches, load), contexts, files)
  }

  /** The memo changes nothing, however packages are loaded, exactly when contexts with the same
      key match the same files, as far as matching does not fail. */
  lemma MemoExactly(l: Loader, contexts: seq<BuildContext>, files: Files)
    ensures (forall load :: AgreeFor(l, load, contexts, files)) <==> KeysDistinguish(l, contexts, files)
  {
    hide Memoised, Reference, KeyFor, AnyBroken, Matching;
    if KeysDistinguish(l, contexts, files) {
      forall load
        ensures AgreeFor(l, load, contexts, files)
      {
        var l' := Loader(l.matches, load);
        SameMatching(l, l', files, contexts);
        forall i, j | 0 <= i < j < |contexts|
          ensures !Clash(l', contexts, files, i, j)
        {
          assert !Clash(l, contexts, files, i, j);
        }
        MemoMeansReference(l', contexts, files);
      }
    } else {
      var l' := ClashShows(l, contexts, files);
      assert l' == Loader(l.matches, l'.load);
      assert !AgreeFor(l, l'.load, contexts, files);
    }
  }

  /** Names with spaces, two contexts that tell them apart, and a loader for which the memo hides
      an error. */
  lemma SpacesShow() returns (l: Loader, contexts: seq<BuildContext>, files: Files)
    ensures Memoised(l, contexts, files) != Reference(l, contexts, files)
    ensures files.Keys == {"a.go b.go", "a.go", "b.go"} && |contexts| == 2
  {
    hide Memoised, Reference, IsKey, KeyOf;
    var linux, windows := BC("linux", "amd64"), BC("windows", "amd64");
    files := map["a.go b.go" := 0, "a.go" := 1, "b.go" := 2];
    contexts := [linux, windows];
    l := Loader((bc: BuildContext, n: string, c: int) => if (bc.goos == "linux") == (c == 0) then Yes
      else No, f => NotFound);
    var a, b := Matching(l, linux, files), Matching(l, windows, files);
    assert a.Keys == {"a.go b.go"} && b.Keys == {"a.go", "b.go"};
    KeyCollision();
    KeyUnique(KeyOf(a.Keys), "a.go b.go", a.Keys);
    KeyUnique(KeyOf(b.Keys), "a.go b.go", b.Keys);
    assert Clash(l, contexts, files, 0, 1);
    l := ClashShows(l, contexts, files);
  }
}
