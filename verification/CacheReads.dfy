/** What calls of `getModule` return, said of the files that were on disk when each call last
    looked at them (internal/fetchdatasource/fetchdatasource.go). */
module CacheReads {
  import opened Basics
  import opened LocalModules
  import opened ModuleCache

  // --------------------------------------------------------- observing a run

  /** A look at a module: the files of all local modules then, what went wrong, and whether it
      was a fetch or a check for change. */
  datatype Reading = Reading(disk: map<Path, Files>, trouble: Trouble, fetch: bool)

  predicate Looks(a: Action, c: Caller) {
    (a.FinishFetch? || a.CheckHit?) && a.c == c
  }

  function Observe(s: State, a: Action, c: Caller, r: Option<Reading>): Option<Reading> {
    if Looks(a, c) then Some(Reading(s.disk, a.trouble, a.FinishFetch?)) else r
  }

  /** The last time that caller `c` looked during a run, if it did; else `r`. */
  function LastReading(env: Env, s: State, actions: seq<Action>, c: Caller, r: Option<Reading>): Option<Reading>
    requires IsRun(env, s, actions)
    decreases |actions|
  {
    if actions == [] then r
    else LastReading(env, Step(env, s, actions[0]), actions[1..], c, Observe(s, actions[0], c, r))
  }

  /** The failed fetches of local modules, with the codes of their errors. */
  function Failures(env: Env, s: State, actions: seq<Action>): set<(Path, int)>
    requires IsRun(env, s, actions)
    decreases |actions|
  {
    if actions == [] then {}
    else
      var a := actions[0];
      (if a.FinishFetch? && a.trouble.Fail? then {(s.calls[a.c].path, a.trouble.code)} else {})
      + Failures(env, Step(env, s, a), actions[1..])
  }

  // ----------------------------------------------------- what a look tells

  /** The module as it was on disk. */
  predicate OnDisk(env: Env, path: Path, disk: map<Path, Files>, result: Outcome) {
    && path in disk && result.Found?
    && result.m.version == env.versionOf(path) && result.m.content == ContentOf(disk[path])
  }

  /** What a fetch that ended then had to report. */
  predicate Reports(env: Env, path: Path, version: Version, r: Reading, result: Outcome) {
    match r.trouble
    case Cancel => result == Canceled
    case Fail(code) => result == Error(code)
    case NoTrouble => if path in env.locals then OnDisk(env, path, r.disk, result)
      else result == env.remote(path, version)
  }

  /** What there was to report. */
  predicate Was(env: Env, path: Path, version: Version, r: Reading, current: Outcome) {
    if path in env.locals then OnDisk(env, path, r.disk, current) else current == env.remote(path, version)
  }

  /** How a finished call's last look led to its result. */
  predicate EndsWith(env: Env, path: Path, version: Version, result: Outcome, how: How, r: Reading) {
    match how
    case FetchedNow => r.fetch && Reports(env, path, version, r, result) && !result.Canceled?
    case FetchFailed => r.fetch && Reports(env, path, version, r, result) && !result.Canceled?
    case CheckFailed => !r.fetch && r.trouble.Fail? && result == Error(r.trouble.code)
    case GaveUp => result == Canceled && (r.trouble == Cancel || env.remote(path, version) == Canceled)
    case CachedModule => !r.fetch && result.Found?
    case CachedError => !r.fetch && result.Error?
  }

  /** A call and the last look it had. */
  predicate Follows(env: Env, call: Call, r: Option<Reading>) {
    match call
    case Fetched(p, v, e, cur) =>
      r.Some? && r.value.fetch && Reports(env, p, v, r.value, e.result) && Was(env, p, v, r.value, cur)
    case StoredRequested(p, v, e, cur) =>
      && r.Some? && r.value.fetch && Reports(env, p, v, r.value, e.result) && Was(env, p, v, r.value, cur)
      && !e.result.Canceled?
    case Done(p, v, result, cur, how) =>
      r.Some? && Was(env, p, v, r.value, cur) && EndsWith(env, p, v, result, how, r.value)
    case _ => true
  }

  lemma FollowsStep(env: Env, s: State, a: Action, c: Caller, r: Option<Reading>)
    requires env.locals <= s.disk.Keys && Provenance(s) && Enabled(env, s, a)
    requires c in s.calls ==> Follows(env, s.calls[c], r)
    ensures c in Step(env, s, a).calls ==> Follows(env, Step(env, s, a).calls[c], Observe(s, a, c, r))
  {
    hide KnownTime, HasChanged, ContentOf, Explained;
    var s' := Step(env, s, a);
    if c in s'.calls && c in s.calls && s'.calls[c] != s.calls[c] {
      match a
      case CheckHit(_, trouble) => CheckFollows(env, s, s.calls[c], trouble);
      case FinishFetch(_, trouble) => FetchFollows(env, s, s.calls[c], trouble);
      case _ =>
    }
  }

  lemma CheckFollows(env: Env, s: State, call: Call, trouble: Trouble)
    requires env.locals <= s.disk.Keys && call.Hit? && CallExplained(s.log, call)
    ensures Follows(env, Checked(env, s, call, trouble), Some(Reading(s.disk, trouble, false)))
  {
    hide KnownTime, HasChanged, ContentOf;
  }

  lemma FetchFollows(env: Env, s: State, call: Call, trouble: Trouble)
    requires env.locals <= s.disk.Keys && call.InfoRead?
    ensures var result, now := FetchResult(env, s, call, trouble), Uncached(env, s, call.path, call.version);
      Follows(env, Fetched(call.path, call.version, Entry(result, IsLocal(env, s, call.path)), now),
        Some(Reading(s.disk, trouble, true)))
  {
    hide KnownTime, ContentOf;
  }

  lemma DiskKeys(env: Env, s: State, a: Action)
    requires Enabled(env, s, a)
    ensures Step(env, s, a).disk.Keys == s.disk.Keys
  {
    hide KnownTime, HasChanged, ContentOf;
  }

  lemma {:induction false} FollowsAlways(env: Env, s: State, actions: seq<Action>, c: Caller, r: Option<Reading>)
    requires env.locals <= s.disk.Keys && Provenance(s) && IsRun(env, s, actions)
    requires c in s.calls ==> Follows(env, s.calls[c], r)
    ensures c in After(env, s, actions).calls ==>
      Follows(env, After(env, s, actions).calls[c], LastReading(env, s, actions, c, r))
    decreases |actions|
  {
    hide Follows, Provenance, Enabled, Step, Observe;
    if actions != [] {
      FollowsStep(env, s, actions[0], c, r);
      ProvenanceStep(env, s, actions[0]);
      DiskKeys(env, s, actions[0]);
      FollowsAlways(env, Step(env, s, actions[0]), actions[1..], c, Observe(s, actions[0], c, r));
    }
  }

  /** A finished call has looked, and what it then recorded as current was. */
  lemma CurrentWas(env: Env, s: State, actions: seq<Action>, c: Caller)
    requires Initial(s) && env.locals <= s.disk.Keys && IsRun(env, s, actions)
    requires c in After(env, s, actions).calls && After(env, s, actions).calls[c].Done?
    ensures var call, r := After(env, s, actions).calls[c], LastReading(env, s, actions, c, None);
      r.Some? && Was(env, call.path, call.version, r.value, call.current) && Follows(env, call, r)
  {
    hide After, IsRun, LastReading, Was;
    InitialProvenance(s);
    FollowsAlways(env, s, actions, c, None);
  }

  lemma InitialProvenance(s: State)
    requires Initial(s)
    ensures Provenance(s)
  {
  }

  // ------------------------------------------------------- where errors come from

  /** Every failed fetch of a local module that is on record did fail. */
  predicate ErrorsKnown(env: Env, log: set<Fetch>, failures: set<(Path, int)>) {
    forall f :: f in log && f.path in env.locals && f.result.Error? ==> (f.path, f.result.code) in failures
  }

  lemma {:induction false} ErrorsKnownAlways(env: Env, s: State, actions: seq<Action>, before: set<(Path, int)>)
    requires env.locals <= s.disk.Keys && IsRun(env, s, actions) && ErrorsKnown(env, s.log, before)
    ensures ErrorsKnown(env, After(env, s, actions).log, before + Failures(env, s, actions))
    decreases |actions|
  {
    hide Enabled, Step, ErrorsKnown;
    if actions == [] {
      assert before + {} == before;
    } else {
      var a := actions[0];
      var more := NewFailures(s, a);
      ErrorsKnownStep(env, s, a, before);
      DiskKeys(env, s, a);
      FailuresFirst(env, s, actions);
      ErrorsKnownAlways(env, Step(env, s, a), actions[1..], before + more);
      assert before + (more + Failures(env, Step(env, s, a), actions[1..]))
          == before + more + Failures(env, Step(env, s, a), actions[1..]);
    }
  }

  function NewFailures(s: State, a: Action): set<(Path, int)> {
    if a.FinishFetch? && a.trouble.Fail? && a.c in s.calls then {(s.calls[a.c].path, a.trouble.code)} else {}
  }

  lemma FailuresFirst(env: Env, s: State, actions: seq<Action>)
    requires IsRun(env, s, actions) && actions != []
    ensures Failures(env, s, actions)
      == NewFailures(s, actions[0]) + Failures(env, Step(env, s, actions[0]), actions[1..])
  {
    hide Step;
  }

  lemma ErrorsKnownStep(env: Env, s: State, a: Action, before: set<(Path, int)>)
    requires env.locals <= s.disk.Keys && Enabled(env, s, a) && ErrorsKnown(env, s.log, before)
    ensures ErrorsKnown(env, Step(env, s, a).log, before + NewFailures(s, a))
  {
    hide KnownTime, HasChanged, ContentOf;
  }

  // -------------------------------------------------------------------- results

  /** A finished call got the right answer: not local, what its getter reports for the version;
      local, the module as it was on disk when the call last looked. */
  ghost predicate RightAnswer(env: Env, call: Call, r: Reading)
    requires call.Done?
  {
    if call.path in env.locals then OnDisk(env, call.path, r.disk, call.result)
    else call.result == env.remote(call.path, call.version)
  }

  /** From an empty cache, whatever happens: every entry comes from a completed fetch. A call
      that has finished and was not cancelled got the right answer, except that a call for a
      local module got an error exactly if something failed: its last look, with the same code,
      or an earlier fetch of the module whose error was still cached. */
  lemma CacheIsTransparent(env: Env, s: State, actions: seq<Action>, c: Caller)
    requires Initial(s) && env.locals <= s.disk.Keys && IsRun(env, s, actions)
    requires Consistent(env) && NeverResolvesToLocal(env) && CarefulRun(env, s, actions)
    requires c in After(env, s, actions).calls && After(env, s, actions).calls[c].Done?
    ensures Provenance(After(env, s, actions))
    ensures LastReading(env, s, actions, c, None).Some?
    ensures var call, r := After(env, s, actions).calls[c], LastReading(env, s, actions, c, None).value;
      && (call.result.Canceled? ==> r.trouble == Cancel)
      && (call.path !in env.locals && !call.result.Canceled? ==> RightAnswer(env, call, r))
      && (call.path in env.locals && !call.result.Canceled? ==> (RightAnswer(env, call, r) <==> !Failed(call.how)))
      && (call.path in env.locals ==> (call.result.Error? <==> Failed(call.how)))
      && (call.path in env.locals && call.result.Error? ==>
           || r.trouble == Fail(call.result.code)
           || (call.how.CachedError? && (call.path, call.result.code) in Failures(env, s, actions)))
  {
    hide Consistent, NeverResolvesToLocal, CarefulRun, IsRun, After, LastReading, Failures, Provenance, Agreement,
         ContentOf;
    InitialAgreement(env, s);
    ProvenanceAlways(env, s, actions);
    AgreementAlways(env, s, actions);
    CurrentWas(env, s, actions, c);
    ErrorsKnownAlways(env, s, actions, {});
    assert {} + Failures(env, s, actions) == Failures(env, s, actions);
    var s' := After(env, s, actions);
    NeverCancels(env, s'.calls[c].path, s'.calls[c].version);
    Concluded(env, s', s'.calls[c], c, LastReading(env, s, actions, c, None).value, Failures(env, s, actions));
  }

  lemma NeverCancels(env: Env, path: Path, version: Version)
    requires Consistent(env)
    ensures !env.remote(path, version).Canceled?
  {
  }

  lemma Concluded(env: Env, s: State, call: Call, c: Caller, r: Reading, failures: set<(Path, int)>)
    requires Agreement(env, s) && Provenance(s) && c in s.calls && s.calls[c] == call && call.Done?
    requires Follows(env, call, Some(r)) && ErrorsKnown(env, s.log, failures)
    requires !env.remote(call.path, call.version).Canceled?
    ensures call.result.Canceled? ==> r.trouble == Cancel
    ensures call.path !in env.locals && !call.result.Canceled? ==> RightAnswer(env, call, r)
    ensures call.path in env.locals && !call.result.Canceled? ==> (RightAnswer(env, call, r) <==> !Failed(call.how))
    ensures call.path in env.locals ==> (call.result.Error? <==> Failed(call.how))
    ensures call.path in env.locals && call.result.Error? ==>
      || r.trouble == Fail(call.result.code)
      || (call.how.CachedError? && (call.path, call.result.code) in failures)
  {
    hide CacheAgrees, EntryAgrees, LocalOnly, ContentOf;
    assert CallAgrees(env, s, call) && CallExplained(s.log, call);
  }

  /** If reading local modules never fails, every finished call that was not cancelled got the
      right answer. */
  lemma TransparentWithoutFailures(env: Env, s: State, actions: seq<Action>, c: Caller)
    requires Initial(s) && env.locals <= s.disk.Keys && IsRun(env, s, actions)
    requires Consistent(env) && NeverResolvesToLocal(env) && CarefulRun(env, s, actions)
    requires forall i :: 0 <= i < |actions| ==> !Fails(actions[i])
    requires c in After(env, s, actions).calls && After(env, s, actions).calls[c].Done?
    ensures var call, r := After(env, s, actions).calls[c], LastReading(env, s, actions, c, None);
      !call.result.Canceled? ==> r.Some? && RightAnswer(env, call, r.value)
  {
    hide Consistent, NeverResolvesToLocal, CarefulRun, IsRun, After, LastReading, Failures, RightAnswer;
    CacheIsTransparent(env, s, actions, c);
    CleanAlways(env, s, actions);
  }
}
