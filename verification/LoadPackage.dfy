/** Loading a package for every build context (internal/fetch/load.go, `loadPackage`): the
    objects, which are copied and retagged in place. */
module LoadPackage {
  import opened ByteStrings
  import opened LoadSpec

  class Symbol {
    const meta: int
    var children: seq<int>
    var bc: BuildContext

    constructor (meta: int, children: seq<int>, bc: BuildContext)
      ensures this.meta == meta && this.children == children && this.bc == bc
    {
      this.meta, this.children, this.bc := meta, children, bc;
    }
  }

  class Documentation {
    var bc: BuildContext
    const synopsis: string
    const source: int
    var api: seq<Symbol>

    constructor (bc: BuildContext, synopsis: string, source: int, api: seq<Symbol>)
      ensures this.bc == bc && this.synopsis == synopsis && this.source == source && this.api == api
    {
      this.bc, this.synopsis, this.source, this.api := bc, synopsis, source, api;
    }
  }

  function ApiValue(api: seq<Symbol>): (r: seq<SymbolValue>)
    reads api
    ensures |r| == |api| && forall i :: 0 <= i < |api| ==> r[i] == SymbolValue(api[i].meta, api[i].children, api[i].bc)
  {
    if api == [] then []
    else ApiValue(api[..|api| - 1]) + [SymbolValue(api[|api| - 1].meta, api[|api| - 1].children, api[|api| - 1].bc)]
  }

  function ValueOf(d: Documentation): DocValue
    reads d, d.api
  {
    DocValue(d.bc, d.synopsis, d.source, ApiValue(d.api))
  }

  /** Sets the build context of every symbol, in place. */
  method Tag(api: seq<Symbol>, bc: BuildContext)
    modifies api
    ensures forall i :: 0 <= i < |api| ==> api[i].bc == bc && api[i].children == old(api[i].children)
  {
    for i := 0 to |api|
      invariant forall j :: 0 <= j < i ==> api[j].bc == bc
      invariant forall j :: 0 <= j < |api| ==> api[j].children == old(api[j].children)
    {
      api[i].bc := bc;
    }
  }

  /** `loadPackageForBuildContext`: new symbols for what the loader finds. */
  method LoadForContext(l: Loader, files: Files) returns (r: Loaded, api: seq<Symbol>)
    ensures r == l.load(files) && fresh(api)
    ensures r.Good? || r.TooLarge? ==> |api| == |r.info.api|
    ensures r.Good? || r.TooLarge? ==> forall i :: 0 <= i < |api| ==>
      api[i].meta == r.info.api[i].meta && api[i].children == r.info.api[i].children
  {
    r, api := l.load(files), [];
    if r.Good? || r.TooLarge? {
      for k := 0 to |r.info.api|
        invariant |api| == k && fresh(api)
        invariant forall i :: 0 <= i < k ==>
          api[i].meta == r.info.api[i].meta && api[i].children == r.info.api[i].children
      {
        var s := new Symbol(r.info.api[k].meta, r.info.api[k].children, BC("", ""));
        api := api + [s];
      }
    }
  }

  ghost function Own(doc: Documentation): set<object>
    reads doc
  {
    {doc} + (set s: Symbol | s in doc.api :: s as object)
  }

  /** New symbols with the same contents, for another build context. */
  method CopyApi(api: seq<Symbol>, bc: BuildContext) returns (copy: seq<Symbol>)
    ensures fresh(copy) && |copy| == |api|
    ensures forall i :: 0 <= i < |api| ==>
      copy[i].meta == api[i].meta && copy[i].children == api[i].children && copy[i].bc == bc
  {
    copy := [];
    for k := 0 to |api|
      invariant |copy| == k && fresh(copy)
      invariant forall i :: 0 <= i < k ==>
        copy[i].meta == api[i].meta && copy[i].children == api[i].children && copy[i].bc == bc
    {
      var s2 := new Symbol(api[k].meta, api[k].children, bc);
      copy := copy + [s2];
    }
  }

  /** The document of an earlier context, copied for `bc`; the original stays as it is. */
  method CopyDoc(doc: Documentation, bc: BuildContext) returns (doc2: Documentation)
    ensures fresh(Own(doc2)) && ValueOf(doc2) == Retag(ValueOf(doc), bc)
  {
    var api := CopyApi(doc.api, bc);
    doc2 := new Documentation(bc, doc.synopsis, doc.source, api);
    assert ApiValue(doc2.api) == Retag(ValueOf(doc), bc).api;
  }

  /** A document for all contexts, in place. */
  method RetagInPlace(doc: Documentation, bc: BuildContext)
    modifies Own(doc)
    ensures Own(doc) == old(Own(doc)) && ValueOf(doc) == Retag(old(ValueOf(doc)), bc) && doc.api == old(doc.api)
  {
    assert forall s :: s in doc.api ==> s in Own(doc);
    doc.bc := bc;
    Tag(doc.api, bc);
    assert ApiValue(doc.api) == Retag(old(ValueOf(doc)), bc).api;
  }

  lemma TaggedApi(api: seq<Symbol>, raw: seq<RawSymbol>, bc: BuildContext)
    requires |api| == |raw| && forall i :: 0 <= i < |api| ==>
      api[i].meta == raw[i].meta && api[i].children == raw[i].children && api[i].bc == bc
    ensures ApiValue(api) == Tagged(raw, bc)
  {
  }

  lemma DocHolds(d: Documentation, info: Info, bc: BuildContext)
    requires d.synopsis == info.synopsis && d.source == info.source && |d.api| == |info.api|
    requires forall i :: 0 <= i < |d.api| ==>
      d.api[i].meta == info.api[i].meta && d.api[i].children == info.api[i].children && d.api[i].bc == bc
    ensures d.bc == bc ==> ValueOf(d) == DocOf(info, bc)
    ensures d.bc == ALL ==> ValueOf(d) == OversizedDoc(info, bc)
  {
    TaggedApi(d.api, info.api, bc);
  }

  // ---------------------------------------------------------------- the memo

  method MatchingFiles(l: Loader, bc: BuildContext, files: Files) returns (ok: bool, m: Files)
    ensures ok <==> forall n :: n in files ==> l.matches(bc, n, files[n]) != Broken
    ensures ok ==> m.Keys == set n | n in files && l.matches(bc, n, files[n]) == Yes
    ensures ok ==> forall n :: n in m ==> m[n] == files[n]
    ensures ok == !AnyBroken(l, bc, files)
    ensures ok ==> m == Matching(l, bc, files)
  {
    m := files;
    var left := files.Keys;
    while left != {}
      invariant left <= files.Keys
      invariant forall n :: n in files && n !in left ==> !l.matches(bc, n, files[n]).Broken?
      invariant forall n :: n in m <==> n in files && (n in left || l.matches(bc, n, files[n]).Yes?)
      invariant forall n :: n in m ==> m[n] == files[n]
      decreases left
    {
      var name :| name in left;
      var matched := l.matches(bc, name, files[name]);
      if matched.Broken? {
        return false, m;
      }
      if matched.No? {
        m := m - {name};
      }
      left := left - {name};
    }
    ok := true;
  }

  method MapKeyForFiles(files: Files) returns (key: string)
    ensures IsKey(key, files.Keys)
  {
    var names := SortNames(files.Keys);
    key := JoinSpace(names);
  }

  /** Loads the matching files and makes their document, all of it new. */
  method LoadDoc(l: Loader, bc: BuildContext, files: Files, mfiles: Files) returns (r: Loaded, doc: Documentation?)
    requires mfiles == Matching(l, bc, files)
    ensures r == LoadedFor(l, bc, files)
    ensures r.Good? ==> doc != null && fresh(Own(doc)) && ValueOf(doc) == DocOf(r.info, bc)
    ensures r.TooLarge? ==> doc != null && fresh(Own(doc)) && ValueOf(doc) == OversizedDoc(r.info, bc)
  {
    hide Matching, DocOf, OversizedDoc, ValueOf;
    var api;
    r, api := LoadForContext(l, mfiles);
    Tag(api, bc);
    doc := null;
    if r.TooLarge? {
      doc := new Documentation(ALL, r.info.synopsis, r.info.source, api);
      DocHolds(doc, r.info, bc);
    } else if r.Good? {
      doc := new Documentation(bc, r.info.synopsis, r.info.source, api);
      DocHolds(doc, r.info, bc);
    }
  }

  method KeyedFiles(l: Loader, bc: BuildContext, files: Files) returns (ok: bool, mfiles: Files, key: string)
    ensures ok == !AnyBroken(l, bc, files)
    ensures ok ==> mfiles == Matching(l, bc, files) && key == KeyFor(l, bc, files)
  {
    key := "";
    ok, mfiles := MatchingFiles(l, bc, files);
    if ok {
      key := MapKeyForFiles(mfiles);
      KeyUnique(key, KeyOf(mfiles.Keys), mfiles.Keys);
    }
  }

  /** The documents hold these values, within a set of objects. */
  ghost predicate Held(docs: seq<Documentation>, vals: seq<DocValue>, repr: set<object>)
    reads repr
  {
    && |docs| == |vals|
    && forall i :: 0 <= i < |docs| ==>
         docs[i] in repr && (forall s :: s in docs[i].api ==> s in repr) && ValueOf(docs[i]) == vals[i]
  }

  lemma HeldAppend(docs: seq<Documentation>, vals: seq<DocValue>, repr: set<object>, doc: Documentation)
    requires Held(docs, vals, repr)
    ensures Held(docs + [doc], vals + [ValueOf(doc)], repr + Own(doc))
  {
    hide ValueOf;
  }

  lemma HeldAt(docs: seq<Documentation>, vals: seq<DocValue>, repr: set<object>, i: nat)
    requires Held(docs, vals, repr) && i < |docs|
    ensures i < |vals| && ValueOf(docs[i]) == vals[i] && Own(docs[i]) <= repr
  {
    hide ValueOf;
  }

  lemma HeldAll(docs: seq<Documentation>, vals: seq<DocValue>, repr: set<object>)
    requires Held(docs, vals, repr)
    ensures |docs| == |vals| && forall i :: 0 <= i < |docs| ==> ValueOf(docs[i]) == vals[i] && Own(docs[i]) <= repr
  {
    hide ValueOf;
  }

  lemma HeldNone()
    ensures Held([], [], {})
  {
  }

  lemma MemoStep(l: Loader, contexts: seq<BuildContext>, i: nat, files: Files)
    requires i < |contexts| && MemoRun(l, contexts[..i], files).MemoGo?
    ensures var r := MemoRun(l, contexts[..i], files);
      MemoRun(l, contexts[..i + 1], files) == MemoAdvance(l, contexts[i], files, r.p, r.memo)
  {
    hide MemoAdvance;
    assert contexts[..i + 1][..i] == contexts[..i];
  }

  lemma {:induction false} MemoStopIsFinal(l: Loader, contexts: seq<BuildContext>, i: nat, files: Files)
    requires i <= |contexts| && MemoRun(l, contexts[..i], files).MemoStop?
    ensures Memoised(l, contexts, files) == MemoRun(l, contexts[..i], files).answer
    decreases |contexts| - i
  {
    hide MemoAdvance;
    if i == |contexts| {
      assert contexts[..i] == contexts;
    } else {
      assert contexts[..i + 1][..i] == contexts[..i];
      MemoStopIsFinal(l, contexts, i + 1, files);
    }
  }

  /** One context, as the loop meets it: either the loop goes on or the answer is found. */
  lemma MemoCases(l: Loader, contexts: seq<BuildContext>, i: nat, files: Files, p: Progress, memo: map<string,
                  DocValue>)
    requires i < |contexts| && MemoRun(l, contexts[..i], files) == MemoGo(p, memo)
    ensures AnyBroken(l, contexts[i], files) ==> Memoised(l, contexts, files) == Answer(Failed(BadMatch), [])
    ensures var bc, next := contexts[i], MemoRun(l, contexts[..i + 1], files);
      var key, r := KeyFor(l, bc, files), LoadedFor(l, bc, files);
      !AnyBroken(l, bc, files) ==>
        && (key in memo ==> next == MemoGo(p.(docs := p.docs + [Retag(memo[key], bc)]), memo))
        && (key !in memo && (r.NotFound? || r.BadPackage?) ==> next == MemoGo(p, memo))
        && (key !in memo && r.TooLarge? ==>
             Memoised(l, contexts, files) == Answer(Oversized(r.info.name, r.info.imports), [OversizedDoc(r.info, bc)]))
        && (key !in memo && r.Fatal? ==> Memoised(l, contexts, files) == Answer(Failed(Serious(r.code)), []))
        && (key !in memo && r.Good? && p.docs != [] && r.info.name != p.name ==>
             Memoised(l, contexts, files) == Answer(Failed(TwoNames), []))
        && (key !in memo && r.Good? && (p.docs == [] || r.info.name == p.name) ==>
          next == MemoGo(Progress(r.info.name, if p.docs == [] then r.info.imports
            else p.imports, p.docs + [DocOf(r.info, bc)]), memo[key := DocOf(r.info, bc)]))
  {
    hide AnyBroken, LoadedFor, KeyFor, OversizedDoc, DocOf, Retag, Memoised, Advance, MemoRun;
    MemoStep(l, contexts, i, files);
    AdvanceCases(l, contexts[i], files, p);
    if MemoRun(l, contexts[..i + 1], files).MemoStop? {
      MemoStopIsFinal(l, contexts, i + 1, files);
    }
  }

  lemma MemoBegins(l: Loader, contexts: seq<BuildContext>, files: Files)
    ensures MemoRun(l, contexts[..0], files) == MemoGo(Progress("", [], []), map[])
  {
  }

  lemma MemoEnds(l: Loader, contexts: seq<BuildContext>, files: Files, p: Progress, memo: map<string, DocValue>)
    requires MemoRun(l, contexts, files) == MemoGo(p, memo)
    ensures p.docs == [] ==> Memoised(l, contexts, files) == Answer(NoPackage, [])
    ensures p.docs != [] && |memo| == 1 && |p.docs| == |contexts| ==>
      Memoised(l, contexts, files) == Answer(Package(p.name, p.imports), [Retag(p.docs[0], ALL)])
    ensures p.docs != [] && !(|memo| == 1 && |p.docs| == |contexts|) ==>
      Memoised(l, contexts, files) == Answer(Package(p.name, p.imports), p.docs)
  {
    hide MemoRun, Retag;
  }

  /** The loop over the build contexts, with its early returns. */
  method LoadContexts(l: Loader, contexts: seq<BuildContext>, files: Files)
    returns (early: bool, outcome: Outcome, docs: seq<Documentation>, distinct: nat,
             ghost vals: seq<DocValue>, ghost memo: map<string, DocValue>, ghost repr: set<object>)
    ensures Held(docs, vals, repr) && fresh(repr)
    ensures early ==> Answer(outcome, vals) == Memoised(l, contexts, files)
    ensures !early ==> outcome.Package? && distinct == |memo| && (memo.Keys != {} ==> docs != [])
    ensures !early ==> MemoRun(l, contexts, files) == MemoGo(Progress(outcome.name, outcome.imports, vals), memo)
  {
    hide *;
    docs, distinct := [], 0;
    var name, imports := "", [];
    var docsByFiles: map<string, Documentation> := map[];
    memo, vals, repr := map[], [], {};
    ghost var at: map<string, nat> := map[];
    MemoBegins(l, contexts, files);
    HeldNone();
    for i := 0 to |contexts|
      invariant MemoRun(l, contexts[..i], files) == MemoGo(Progress(name, imports, vals), memo)
      invariant docsByFiles.Keys == memo.Keys && (memo.Keys != {} ==> docs != [])
      invariant Held(docs, vals, repr) && |docs| == |vals| && fresh(repr)
      invariant forall k :: k in docsByFiles ==>
        k in at && at[k] < |docs| && docsByFiles[k] == docs[at[k]] && memo[k] == vals[at[k]]
    {
      var bc := contexts[i];
      var ok, mfiles, filesKey := KeyedFiles(l, bc, files);
      MemoCases(l, contexts, i, files, Progress(name, imports, vals), memo);
      if !ok {
        HeldNone();
        return true, Failed(BadMatch), [], 0, [], memo, {};
      }
      if filesKey in docsByFiles {
        HeldAt(docs, vals, repr, at[filesKey]);
        var doc2 := CopyDoc(docsByFiles[filesKey], bc);
        HeldAppend(docs, vals, repr, doc2);
        repr := repr + Own(doc2);
        docs, vals := docs + [doc2], vals + [Retag(memo[filesKey], bc)];
      } else {
        var r, doc := LoadDoc(l, bc, files, mfiles);
        match r {
          case NotFound =>
          case BadPackage =>
          case TooLarge(info) =>
            HeldNone();
            HeldAppend([], [], {}, doc);
            assert [] + [doc] == [doc] && [] + [ValueOf(doc)] == [ValueOf(doc)];
            return true, Oversized(info.name, info.imports), [doc], 0, [OversizedDoc(info, bc)], memo, {} + Own(doc);
          case Fatal(code) =>
            HeldNone();
            return true, Failed(Serious(code)), [], 0, [], memo, {};
          case Good(info) =>
            if docs == [] {
              name, imports := info.name, info.imports;
            }
            if info.name != name {
              HeldNone();
              return true, Failed(TwoNames), [], 0, [], memo, {};
            }
            HeldAppend(docs, vals, repr, doc);
            repr := repr + Own(doc);
            docsByFiles, at := docsByFiles[filesKey := doc], at[filesKey := |docs|];
            docs, vals, memo := docs + [doc], vals + [DocOf(info, bc)], memo[filesKey := DocOf(info, bc)];
        }
      }
    }
    assert contexts[..|contexts|] == contexts;
    early, outcome, distinct := false, Package(name, imports), |docsByFiles|;
    assert |docsByFiles| == |docsByFiles.Keys| == |memo.Keys| == |memo|;
  }

  /** `loadPackage`: each distinct key is loaded once, and each document has objects of its own.
      If contexts with the same key match the same files, as they do if file names are not empty
      and hold no spaces, the result is that of loading every context afresh. */
  method Load(l: Loader, contexts: seq<BuildContext>, files: Files) returns (outcome: Outcome, docs: seq<Documentation>)
    ensures outcome == Memoised(l, contexts, files).outcome && |docs| == |Memoised(l, contexts, files).docs|
    ensures forall i :: 0 <= i < |docs| ==>
      fresh(Own(docs[i])) && ValueOf(docs[i]) == Memoised(l, contexts, files).docs[i]
    ensures KeysDistinguish(l, contexts, files) || GoodFileNames(files) ==>
      Memoised(l, contexts, files) == Reference(l, contexts, files)
  {
    hide *;
    if KeysDistinguish(l, contexts, files) {
      MemoMeansReference(l, contexts, files);
    } else if GoodFileNames(files) {
      GoodNamesDistinguish(l, contexts, files);
    }
    var early, distinct;
    ghost var vals, memo, repr;
    early, outcome, docs, distinct, vals, memo, repr := LoadContexts(l, contexts, files);
    HeldAll(docs, vals, repr);
    if !early {
      MemoEnds(l, contexts, files, Progress(outcome.name, outcome.imports, vals), memo);
      if distinct == 1 && |docs| == |contexts| {
        assert memo.Keys != {} by { assert |memo| == |memo.Keys|; }
        docs := docs[..1];
        RetagInPlace(docs[0], ALL);
      }
      outcome := if docs == [] then NoPackage else outcome;
    }
  }
}
