/** Finding the packages of a module (internal/fetch/package.go, `extractPackageMetas`). */
module PackageFiles {
  import opened Basics
  import opened Paths

  const MAX_FILE_SIZE := 30 * 1000 * 1000
  const MAX_PACKAGES_PER_MODULE := 10000

  /** An entry of the walk over the module's content. A file whose metadata cannot be read
      has no size. */
  datatype Size = Unknown | Known(bytes: int)
  datatype Entry = Broken(notExist: bool) | Directory | File(dir: string, name: string, size: Size)

  // ------------------------------------------------------------ import paths

  predicate HasSuffix(s: string, t: string) {
    |t| <= |s| && s[|s| - |t|..] == t
  }

  predicate IgnoredPart(el: string) {
    "." <= el || el == "testdata"
  }

  predicate Ignored(importPath: string) {
    exists i :: 0 <= i < |SplitPath(importPath)| && IgnoredPart(SplitPath(importPath)[i])
  }

  method IgnoredByGoTool(importPath: string) returns (r: bool)
    ensures r == Ignored(importPath)
  {
    var parts := SplitPath(importPath);
    for k := 0 to |parts|
      invariant forall i :: 0 <= i < k ==> !IgnoredPart(parts[i])
    {
      if "." <= parts[k] || parts[k] == "testdata" {
        assert IgnoredPart(parts[k]);
        return true;
      }
    }
    return false;
  }

  predicate Vendored(importPath: string) {
    "vendor/" <= importPath || Contains(importPath, "/vendor/")
  }

  /** `path.Join` of a module path and a clean relative directory. */
  function ImportPath(modulePath: string, dir: string): string {
    if dir == "." then modulePath else modulePath + "/" + dir
  }

  /** A directory is ignored exactly when the module path or the rest is. */
  lemma IgnoredJoin(a: string, b: string)
    ensures Ignored(a + "/" + b) <==> Ignored(a) || Ignored(b)
  {
    hide IgnoredPart, SplitPath;
    SplitConcat(a, b);
    var x, y, z := SplitPath(a), SplitPath(b), SplitPath(a + "/" + b);
    if Ignored(a) {
      var i :| 0 <= i < |x| && IgnoredPart(x[i]);
      assert z[i] == x[i];
    }
    if Ignored(b) {
      var i :| 0 <= i < |y| && IgnoredPart(y[i]);
      assert z[|x| + i] == y[i];
    }
    if Ignored(a + "/" + b) {
      var i :| 0 <= i < |z| && IgnoredPart(z[i]);
      assert z[i] == if i < |x| then x[i] else y[i - |x|];
    }
  }

  // ----------------------------------------------------------------- phase 1

  /** The module path, and which import paths are valid. */
  datatype Module = Module(path: string, valid: string -> bool)

  /** A .go file that is in neither an ignored nor a vendored directory. */
  predicate Candidate(m: Module, e: Entry)
    ensures Candidate(m, e) ==> e.File?
  {
    && e.File? && HasSuffix(e.name, ".go")
    && !Ignored(ImportPath(m.path, e.dir)) && !Vendored(ImportPath(m.path, e.dir))
  }

  predicate ValidDir(m: Module, dir: string) {
    m.valid(ImportPath(m.path, dir))
  }

  predicate Oversized(e: Entry)
    requires e.File?
  {
    e.size.Known? && e.size.bytes > MAX_FILE_SIZE
  }

  /** The directories that hold a .go file and are not to be skipped. */
  function Eligible(m: Module, entries: seq<Entry>): set<string> {
    set i | 0 <= i < |entries| && Candidate(m, entries[i]) :: entries[i].dir
  }

  /** Directories that cannot be processed. */
  function Bad(m: Module, entries: seq<Entry>): set<string> {
    set i | 0 <= i < |entries| && Candidate(m, entries[i])
      && (!ValidDir(m, entries[i].dir) || Oversized(entries[i])) :: entries[i].dir
  }

  /** The entry at `k` is looked at: its directory is not known to be bad before it. */
  predicate Considered(m: Module, entries: seq<Entry>, k: nat)
    requires k < |entries|
    ensures Considered(m, entries, k) ==> entries[k].File?
  {
    Candidate(m, entries[k]) && entries[k].dir !in Bad(m, entries[..k]) && ValidDir(m, entries[k].dir)
  }

  /** The files kept for directory `d`. */
  function Kept(m: Module, entries: seq<Entry>, d: string): seq<string> {
    if entries == [] then []
    else
      var n := |entries| - 1;
      var rest := Kept(m, entries[..n], d);
      if Considered(m, entries, n) && !Oversized(entries[n]) && entries[n].dir == d then rest + [entries[n].name]
        else rest
  }

  /** Directories for which some file is kept. */
  function Started(m: Module, entries: seq<Entry>): set<string> {
    set k | 0 <= k < |entries| && Considered(m, entries, k) && !Oversized(entries[k]) :: entries[k].dir
  }

  datatype WalkError = Walk(notExist: bool) | NoInfo | TooMany

  datatype Verdict = Fine | Fails(error: WalkError)

  /** What the entry at `k` does to a walk that got there. */
  function Blocks(m: Module, entries: seq<Entry>, k: nat): Verdict
    requires k < |entries|
  {
    var e := entries[k];
    if e.Broken? then Fails(Walk(e.notExist))
    else if !Considered(m, entries, k) then Fine
    else if e.size.Unknown? then Fails(NoInfo)
    else if !Oversized(e) && |Started(m, entries[..k + 1])| > MAX_PACKAGES_PER_MODULE then Fails(TooMany)
    else Fine
  }

  // --------------------------------------------------- one entry at a time

  lemma BadStep(m: Module, entries: seq<Entry>, i: nat)
    requires i < |entries|
    ensures Bad(m, entries[..i + 1]) == Bad(m, entries[..i]) +
      if Candidate(m, entries[i]) && (!ValidDir(m, entries[i].dir) || Oversized(entries[i])) then {entries[i].dir}
        else {}
  {
    hide Candidate, ValidDir, Oversized;
    var a, b := entries[..i], entries[..i + 1];
    assert forall k :: 0 <= k < i ==> a[k] == b[k];
    assert b[i] == entries[i];
  }

  lemma ConsideredPrefix(m: Module, entries: seq<Entry>, n: nat, k: nat)
    requires k < n <= |entries|
    ensures Considered(m, entries[..n], k) == Considered(m, entries, k)
  {
    hide Candidate, ValidDir, Bad;
    assert entries[..n][..k] == entries[..k];
  }

  lemma StartedStep(m: Module, entries: seq<Entry>, i: nat)
    requires i < |entries|
    ensures Started(m, entries[..i + 1]) == Started(m, entries[..i]) +
      if Considered(m, entries, i) && !Oversized(entries[i]) then {entries[i].dir} else {}
  {
    hide Candidate, ValidDir, Bad, Oversized;
    var a, b := entries[..i], entries[..i + 1];
    forall k | 0 <= k < i
      ensures a[k] == b[k] && Considered(m, a, k) == Considered(m, b, k)
    {
      ConsideredPrefix(m, entries, i, k);
      ConsideredPrefix(m, entries, i + 1, k);
    }
    ConsideredPrefix(m, entries, i + 1, i);
    assert b[i] == entries[i];
  }

  lemma KeptStep(m: Module, entries: seq<Entry>, i: nat, d: string)
    requires i < |entries|
    ensures Kept(m, entries[..i + 1], d) == Kept(m, entries[..i], d) +
      if Considered(m, entries, i) && !Oversized(entries[i]) && entries[i].dir == d then [entries[i].name] else []
  {
    hide Candidate, ValidDir, Bad, Oversized, Considered;
    ConsideredPrefix(m, entries, i + 1, i);
    assert entries[..i + 1][..i] == entries[..i];
  }

  lemma {:induction false} KeptNone(m: Module, entries: seq<Entry>, d: string)
    ensures Kept(m, entries, d) == [] <==> d !in Started(m, entries)
  {
    hide Candidate, ValidDir, Bad, Oversized, Considered, Started, Kept;
    if entries == [] {
      NothingStarted(m, d);
    } else {
      var n := |entries| - 1;
      assert entries[..n + 1] == entries;
      KeptNone(m, entries[..n], d);
      KeptStep(m, entries, n, d);
      StartedStep(m, entries, n);
    }
  }

  lemma NothingStarted(m: Module, d: string)
    ensures Kept(m, [], d) == [] && d !in Started(m, [])
  {
  }

  // ----------------------------------------------------- what phase 1 finds

  /** All candidate files of a directory, in the order of the walk. */
  function Names(m: Module, entries: seq<Entry>, d: string): seq<string> {
    if entries == [] then []
    else
      var e := entries[|entries| - 1];
      Names(m, entries[..|entries| - 1], d) + if Candidate(m, e) && e.dir == d then [e.name] else []
  }

  /** A directory is started or bad exactly when it is eligible, and one that is not bad has
      all its files kept. */
  lemma {:induction false} Phase1Complete(m: Module, entries: seq<Entry>, d: string)
    ensures d in Eligible(m, entries) <==> d in Started(m, entries) || d in Bad(m, entries)
    ensures d !in Bad(m, entries) ==> Kept(m, entries, d) == Names(m, entries, d)
  {
    hide Candidate, ValidDir, Bad, Oversized, Considered, Started, Kept, Eligible, Names;
    if entries == [] {
      NothingStarted(m, d);
      NothingElse(m, d);
    } else {
      var n := |entries| - 1;
      assert entries[..n + 1] == entries;
      Phase1Complete(m, entries[..n], d);
      KeptStep(m, entries, n, d);
      StartedStep(m, entries, n);
      BadStep(m, entries, n);
      EligibleStep(m, entries, n, d);
      ConsideredIs(m, entries, n);
    }
  }

  lemma NothingElse(m: Module, d: string)
    ensures d !in Bad(m, []) && d !in Eligible(m, []) && Names(m, [], d) == []
  {
  }

  lemma ConsideredIs(m: Module, entries: seq<Entry>, k: nat)
    requires k < |entries|
    ensures Considered(m, entries, k) <==>
      Candidate(m, entries[k]) && entries[k].dir !in Bad(m, entries[..k]) && ValidDir(m, entries[k].dir)
    ensures Candidate(m, entries[k]) ==> entries[k].File?
  {
    hide Bad;
  }

  lemma EligibleStep(m: Module, entries: seq<Entry>, i: nat, d: string)
    requires i < |entries|
    ensures d in Eligible(m, entries[..i + 1]) <==>
      d in Eligible(m, entries[..i]) || (Candidate(m, entries[i]) && entries[i].dir == d)
    ensures Names(m, entries[..i + 1], d) == Names(m, entries[..i], d) + if Candidate(m, entries[i])
      && entries[i].dir == d then [entries[i].name] else []
  {
    hide Candidate;
    var a, b := entries[..i], entries[..i + 1];
    assert forall k :: 0 <= k < i ==> a[k] == b[k];
    assert b[i] == entries[i] && b[..i] == a;
  }

  // -------------------------------------------------------- the walk itself

  datatype Status = BadImportPath | FileTooLarge | NotSupported

  /** A failed package: its directory, the reason and whether a message comes with it. */
  datatype State = State(dir: string, status: Status, message: bool)

  /** One state for each bad directory. */
  predicate StatesFor(m: Module, states: seq<State>, bad: set<string>) {
    && (forall i, j :: 0 <= i < j < |states| ==> states[i].dir != states[j].dir)
    && (forall i :: 0 <= i < |states| ==>
         states[i].dir in bad
           && states[i] == State(states[i].dir, if ValidDir(m, states[i].dir) then FileTooLarge
                else BadImportPath, true))
    && (forall d :: d in bad ==> exists i :: 0 <= i < |states| && states[i].dir == d)
  }

  lemma StatesAppend(m: Module, states: seq<State>, bad: set<string>, d: string)
    requires StatesFor(m, states, bad) && d !in bad
    ensures StatesFor(m, states + [State(d, if ValidDir(m, d) then FileTooLarge else BadImportPath, true)], bad + {d})
  {
    hide ValidDir;
    var r := states + [State(d, if ValidDir(m, d) then FileTooLarge else BadImportPath, true)];
    forall x | x in bad + {d}
      ensures exists i :: 0 <= i < |r| && r[i].dir == x
    {
      if x in bad {
        var i :| 0 <= i < |states| && states[i].dir == x;
        assert r[i].dir == x;
      } else {
        assert r[|states|].dir == x;
      }
    }
  }

  lemma Phase1Start(m: Module, entries: seq<Entry>)
    ensures Scanned(m, entries, 0, map[], {}, [])
  {
  }

  /** What the walk does with one entry. */
  datatype Action = FailWalk | Skip | MarkPath | FailInfo | MarkSize | Keep

  method Classify(m: Module, e: Entry, incomplete: set<string>) returns (a: Action)
    ensures a == FailWalk <==> e.Broken?
    ensures a != FailWalk && a != Skip ==> e.File?
    ensures a == Keep ==> e.size.Known?
    ensures a == Skip <==> !e.Broken? && (!Candidate(m, e) || e.dir in incomplete)
    ensures a == MarkPath <==> Candidate(m, e) && e.dir !in incomplete && !ValidDir(m, e.dir)
    ensures a == FailInfo <==> Candidate(m, e) && e.dir !in incomplete && ValidDir(m, e.dir) && e.size.Unknown?
    ensures a == MarkSize <==> Candidate(m, e) && e.dir !in incomplete && ValidDir(m, e.dir) && Oversized(e)
  {
    hide Ignored, Vendored, HasSuffix, ImportPath;
    if e.Broken? {
      return FailWalk;
    }
    if e.Directory? || e.dir in incomplete {
      return Skip;
    }
    var importPath := ImportPath(m.path, e.dir);
    var ignored := IgnoredByGoTool(importPath);
    if ignored || Vendored(importPath) || !HasSuffix(e.name, ".go") {
      return Skip;
    }
    if !m.valid(importPath) {
      return MarkPath;
    }
    if e.size.Unknown? {
      return FailInfo;
    }
    a := if e.size.bytes > MAX_FILE_SIZE then MarkSize else Keep;
  }

  /** The effect of an entry on the two sets of directories. */
  lemma SetsStep(m: Module, entries: seq<Entry>, i: nat)
    requires i < |entries|
    ensures var e, bad, started := entries[i], Bad(m, entries[..i]), Started(m, entries[..i]);
      if !Candidate(m, e) || e.dir in bad
        then Bad(m, entries[..i + 1]) == bad && Started(m, entries[..i + 1]) == started
      else if !ValidDir(m, e.dir) || Oversized(e)
        then Bad(m, entries[..i + 1]) == bad + {e.dir} && Started(m, entries[..i + 1]) == started
      else Bad(m, entries[..i + 1]) == bad && Started(m, entries[..i + 1]) == started + {e.dir}
  {
    hide Candidate, Bad, ValidDir, Started, Oversized, Considered;
    BadStep(m, entries, i);
    StartedStep(m, entries, i);
    ConsideredIs(m, entries, i);
  }

  lemma KeptSteps(m: Module, entries: seq<Entry>, i: nat)
    requires i < |entries|
    ensures var e := entries[i];
      if !Candidate(m, e) || e.dir in Bad(m, entries[..i]) || !ValidDir(m, e.dir) || Oversized(e) then
        forall d :: Kept(m, entries[..i + 1], d) == Kept(m, entries[..i], d)
      else
        && (forall d :: d != e.dir ==> Kept(m, entries[..i + 1], d) == Kept(m, entries[..i], d))
        && Kept(m, entries[..i + 1], e.dir) == Kept(m, entries[..i], e.dir) + [e.name]
        && (e.dir !in Started(m, entries[..i]) ==> Kept(m, entries[..i], e.dir) == [])
  {
    hide Candidate, Bad, ValidDir, Started, Oversized, Kept, Considered;
    ConsideredIs(m, entries, i);
    forall d
      ensures Kept(m, entries[..i + 1], d) == Kept(m, entries[..i], d) +
              if Considered(m, entries, i) && !Oversized(entries[i]) && entries[i].dir == d then [entries[i].name]
                else []
    {
      KeptStep(m, entries, i, d);
    }
    if Candidate(m, entries[i]) {
      KeptNone(m, entries[..i], entries[i].dir);
    }
  }

  lemma BlocksIs(m: Module, entries: seq<Entry>, k: nat)
    requires k < |entries|
    ensures var e, b := entries[k], Blocks(m, entries, k);
      if e.Broken? then b == Fails(Walk(e.notExist))
      else if !Candidate(m, e) || e.dir in Bad(m, entries[..k]) || !ValidDir(m, e.dir) then b == Fine
      else if e.size.Unknown? then b == Fails(NoInfo)
      else b == if !Oversized(e) && |Started(m, entries[..k + 1])| > MAX_PACKAGES_PER_MODULE then Fails(TooMany)
        else Fine
  {
    hide Bad, Started, Ignored, Vendored;
  }

  /** What is known after the first `i` entries. */
  ghost predicate Scanned(m: Module, entries: seq<Entry>, i: nat, dirs: map<string, seq<string>>,
                          incomplete: set<string>, states: seq<State>) {
    && i <= |entries|
    && (forall k :: 0 <= k < i ==> Blocks(m, entries, k).Fine?)
    && incomplete == Bad(m, entries[..i]) && StatesFor(m, states, incomplete)
    && dirs.Keys == Started(m, entries[..i])
    && (forall d :: d in dirs ==> dirs[d] == Kept(m, entries[..i], d))
  }

  lemma ScanSkip(m: Module, entries: seq<Entry>, i: nat, dirs: map<string, seq<string>>, incomplete: set<string>,
                 states: seq<State>)
    requires Scanned(m, entries, i, dirs, incomplete, states) && i < |entries|
    requires !entries[i].Broken? && (!Candidate(m, entries[i]) || entries[i].dir in incomplete)
    ensures Scanned(m, entries, i + 1, dirs, incomplete, states)
  {
    hide Candidate, ValidDir, Oversized, Bad, Started, Kept, Blocks, StatesFor;
    SetsStep(m, entries, i);
    BlocksIs(m, entries, i);
    KeptSteps(m, entries, i);
  }

  lemma ScanMark(m: Module, entries: seq<Entry>, i: nat, dirs: map<string, seq<string>>, incomplete: set<string>,
                 states: seq<State>)
    requires Scanned(m, entries, i, dirs, incomplete, states) && i < |entries| && Candidate(m, entries[i])
    requires entries[i].dir !in incomplete && (!ValidDir(m, entries[i].dir) || Oversized(entries[i]))
    ensures var e := entries[i];
      Scanned(m, entries, i + 1, dirs, incomplete + {e.dir},
        states + [State(e.dir, if ValidDir(m, e.dir) then FileTooLarge else BadImportPath, true)])
  {
    hide Candidate, ValidDir, Bad, Started, Kept, Blocks, StatesFor;
    SetsStep(m, entries, i);
    BlocksIs(m, entries, i);
    KeptSteps(m, entries, i);
    StatesAppend(m, states, incomplete, entries[i].dir);
  }

  lemma ScanKeep(m: Module, entries: seq<Entry>, i: nat, dirs: map<string, seq<string>>, incomplete: set<string>,
                 states: seq<State>)
    requires Scanned(m, entries, i, dirs, incomplete, states) && i < |entries| && Candidate(m, entries[i])
    requires entries[i].dir !in incomplete && ValidDir(m, entries[i].dir) && !Oversized(entries[i])
    requires entries[i].size.Known?
    ensures var e := entries[i];
      var dirs' := dirs[e.dir := (if e.dir in dirs then dirs[e.dir] else []) + [e.name]];
      if |dirs'| > MAX_PACKAGES_PER_MODULE then Blocks(m, entries, i) == Fails(TooMany)
      else Scanned(m, entries, i + 1, dirs', incomplete, states)
  {
    hide Candidate, ValidDir, Oversized, Bad, Started, Kept, Blocks, StatesFor;
    var e := entries[i];
    var dirs' := dirs[e.dir := (if e.dir in dirs then dirs[e.dir] else []) + [e.name]];
    SetsStep(m, entries, i);
    BlocksIs(m, entries, i);
    KeptSteps(m, entries, i);
    assert dirs'.Keys == Started(m, entries[..i + 1]);
    assert |dirs'| == |dirs'.Keys|;
  }

  lemma ScannedIs(m: Module, entries: seq<Entry>, i: nat, dirs: map<string, seq<string>>, incomplete: set<string>,
                  states: seq<State>)
    requires Scanned(m, entries, i, dirs, incomplete, states)
    ensures incomplete == Bad(m, entries[..i])
    ensures i == |entries| ==>
      incomplete == Bad(m, entries) && StatesFor(m, states, incomplete) && FirstFailure(m, entries, Fine)
    ensures i == |entries| ==> dirs.Keys == Started(m, entries) && forall d :: d in dirs ==>
      dirs[d] == Kept(m, entries, d)
  {
    hide Blocks, Bad, StatesFor, Started, Kept;
    assert entries[..|entries|] == entries;
  }

  lemma ScanFail(m: Module, entries: seq<Entry>, i: nat, dirs: map<string, seq<string>>, incomplete: set<string>,
                 states: seq<State>, r: Verdict)
    requires Scanned(m, entries, i, dirs, incomplete, states) && i < |entries| && Blocks(m, entries, i) == r && r.Fails?
    ensures FirstFailure(m, entries, r)
  {
    hide Blocks;
  }

  /** The first entry at which the walk fails, if there is one. */
  ghost predicate FirstFailure(m: Module, entries: seq<Entry>, r: Verdict) {
    if r.Fine? then forall k :: 0 <= k < |entries| ==> Blocks(m, entries, k).Fine?
    else exists k :: 0 <= k < |entries| && Blocks(m, entries, k) == r && forall j :: 0 <= j < k ==>
      Blocks(m, entries, j).Fine?
  }

  /** The first phase, entry by entry. */
  method Phase1(m: Module, entries: seq<Entry>)
    returns (r: Verdict, dirs: map<string, seq<string>>, incomplete: set<string>, states: seq<State>)
    ensures FirstFailure(m, entries, r)
    ensures r.Fine? ==> incomplete == Bad(m, entries) && StatesFor(m, states, incomplete)
    ensures r.Fine? ==> dirs.Keys == Started(m, entries) && forall d :: d in dirs ==> dirs[d] == Kept(m, entries, d)
  {
    hide *;
    dirs, incomplete, states := map[], {}, [];
    Phase1Start(m, entries);
    for i := 0 to |entries|
      invariant Scanned(m, entries, i, dirs, incomplete, states)
    {
      var e := entries[i];
      assert incomplete == Bad(m, entries[..i]) by { ScannedIs(m, entries, i, dirs, incomplete, states); }
      var action := Classify(m, e, incomplete);
      BlocksIs(m, entries, i);
      match action {
        case FailWalk =>
          ScanFail(m, entries, i, dirs, incomplete, states, Fails(Walk(e.notExist)));
          return Fails(Walk(e.notExist)), dirs, incomplete, states;
        case Skip =>
          ScanSkip(m, entries, i, dirs, incomplete, states);
        case MarkPath =>
          ScanMark(m, entries, i, dirs, incomplete, states);
          incomplete, states := incomplete + {e.dir}, states + [State(e.dir, BadImportPath, true)];
        case FailInfo =>
          ScanFail(m, entries, i, dirs, incomplete, states, Fails(NoInfo));
          return Fails(NoInfo), dirs, incomplete, states;
        case MarkSize =>
          ScanMark(m, entries, i, dirs, incomplete, states);
          incomplete, states := incomplete + {e.dir}, states + [State(e.dir, FileTooLarge, true)];
        case Keep =>
          ScanKeep(m, entries, i, dirs, incomplete, states);
          ghost var before := dirs;
          dirs := dirs[e.dir := (if e.dir in dirs then dirs[e.dir] else []) + [e.name]];
          if |dirs| > MAX_PACKAGES_PER_MODULE {
            ScanFail(m, entries, i, before, incomplete, states, Fails(TooMany));
            return Fails(TooMany), dirs, incomplete, states;
          }
      }
    }
    ScannedIs(m, entries, |entries|, dirs, incomplete, states);
    r := Fine;
  }
}
