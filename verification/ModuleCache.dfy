/** The module cache of the fetching data source (internal/fetchdatasource/fetchdatasource.go)
    as a state machine: any number of concurrent `getModule` calls, each cache access one
    step, fetches that take time, any edits of local modules, and evictions at any moment. */
module ModuleCache {
  import opened LocalModules

  type Path = string
  type Version = string
  type Caller = nat

  const LATEST: Version := "latest"
  const LOCAL: Version := "v0.0.0"

  /** A fetched module. `commitTime` is 0 (Go's zero time) when the getter could not rely
      on a modification time. */
  datatype Module = Module(version: Version, content: Content, commitTime: nat)

  /** What a fetch reports. Cancellations are never cached. */
  datatype Outcome = Found(m: Module) | Error(code: int) | Canceled

  /** A cache entry; `volatile` says that its getter can tell whether the module changed. */
  datatype Entry = Entry(result: Outcome, volatile: bool)

  /** A completed fetch. */
  datatype Fetch = Fetch(path: Path, version: Version, result: Outcome)

  /** How a call came to its result. */
  datatype How = CachedModule | CachedError | CheckFailed | FetchedNow | FetchFailed | GaveUp

  predicate Failed(how: How) {
    how.CachedError? || how.CheckFailed? || how.FetchFailed?
  }

  /** Where a call of `getModule(path, version)` stands. `current` is what fetching without the
      cache gave when the call last looked. */
  datatype Call =
    | Starting(path: Path, version: Version)
    | TryLocal(path: Path, version: Version)
    | Hit(path: Path, version: Version, entry: Entry)
    | Fetching(path: Path, version: Version)
    | InfoRead(path: Path, version: Version, commitTime: nat)
    | Fetched(path: Path, version: Version, entry: Entry, current: Outcome)
    | StoredRequested(path: Path, version: Version, entry: Entry, current: Outcome)
    | Done(path: Path, version: Version, result: Outcome, current: Outcome, how: How)

  type Cache = map<(Path, Version), Entry>

  /** `now` is the time in milliseconds. */
  datatype State = State(cache: Cache, calls: map<Caller, Call>, disk: map<Path, Files>, log: set<Fetch>, now: int)

  /** The fixed world: what the other getters report for each path and version, which modules
      are local, the version they go by, and the files that their packages were compiled
      from. */
  datatype Env = Env(remote: (Path, Version) -> Outcome, locals: set<Path>, versionOf: Path -> Version,
    compiled: Path -> seq<string>)

  /** What goes wrong from outside during a step: the caller's context is cancelled, or
      reading a local module fails. */
  datatype Trouble = NoTrouble | Cancel | Fail(code: int)

  datatype Action =
    | Begin(c: Caller, path: Path, version: Version)
    | LookExact(c: Caller)
    | LookLocal(c: Caller)
    | CheckHit(c: Caller, trouble: Trouble)
    | ReadInfo(c: Caller)
    | FinishFetch(c: Caller, trouble: Trouble)
    | StoreRequested(c: Caller)
    | StoreResolved(c: Caller)
    | Evict(path: Path, version: Version)
    | Edit(path: Path, files: Files)
    | Tick(ms: nat)

  predicate IsLocal(env: Env, s: State, path: Path) {
    path in env.locals && path in s.disk
  }

  predicate Enabled(env: Env, s: State, a: Action) {
    match a
    case Begin(c, _, _) => c !in s.calls
    case LookExact(c) => c in s.calls && s.calls[c].Starting?
    case LookLocal(c) => c in s.calls && s.calls[c].TryLocal?
    case CheckHit(c, _) => c in s.calls && s.calls[c].Hit?
    case ReadInfo(c) => c in s.calls && s.calls[c].Fetching?
    case FinishFetch(c, t) => c in s.calls && s.calls[c].InfoRead? && (t.Fail? ==> IsLocal(env, s, s.calls[c].path))
    case StoreRequested(c) => c in s.calls && s.calls[c].Fetched?
    case StoreResolved(c) => c in s.calls && s.calls[c].StoredRequested?
    case Evict(_, _) => true
    case Edit(p, _) => p in s.disk
    case Tick(_) => true
  }

  function Known(env: Env, s: State, path: Path): nat
    requires path in s.disk
  {
    KnownTime(env.compiled(path), s.disk[path], s.now)
  }

  /** What fetching now, without the cache, would give. */
  function Uncached(env: Env, s: State, path: Path, version: Version): Outcome {
    if IsLocal(env, s, path) then Found(Module(env.versionOf(path), ContentOf(s.disk[path]), Known(env, s, path)))
    else env.remote(path, version)
  }

  /** A cached error is returned as it is; a cached module is returned unless its getter
      can tell that it changed; if the getter cannot look, that error is returned. */
  function Checked(env: Env, s: State, call: Call, trouble: Trouble): Call
    requires call.Hit?
  {
    var r, now := call.entry.result, Uncached(env, s, call.path, call.version);
    if !r.Found? then Done(call.path, call.version, r, now, if r.Error? then CachedError else GaveUp)
    else if !call.entry.volatile then Done(call.path, call.version, r, now, CachedModule)
    else if trouble.Fail? then Done(call.path, call.version, Error(trouble.code), now, CheckFailed)
    else if trouble.Cancel? then Done(call.path, call.version, Canceled, now, GaveUp)
    else if call.path in s.disk && !HasChanged(env.compiled(call.path), s.disk[call.path], s.now, r.m.commitTime) then
      Done(call.path, call.version, r, now, CachedModule)
    else Fetching(call.path, call.version)
  }

  /** The fetch ends: the content is read now, the time was read before. */
  function FetchResult(env: Env, s: State, call: Call, trouble: Trouble): Outcome
    requires call.InfoRead?
  {
    match trouble
    case Cancel => Canceled
    case Fail(code) => Error(code)
    case NoTrouble =>
      if IsLocal(env, s, call.path)
        then Found(Module(env.versionOf(call.path), ContentOf(s.disk[call.path]), call.commitTime))
      else env.remote(call.path, call.version)
  }

  function Look(s: State, c: Caller, call: Call, version: Version, missed: Call): State {
    var key := (call.path, version);
    s.(calls := s.calls[c := if key in s.cache then Hit(call.path, call.version, s.cache[key]) else missed])
  }

  function Step(env: Env, s: State, a: Action): State
    requires Enabled(env, s, a)
  {
    match a
    case Begin(c, p, v) => s.(calls := s.calls[c := Starting(p, v)])
    case LookExact(c) =>
      var call := s.calls[c];
      Look(s, c, call, call.version, TryLocal(call.path, call.version))
    case LookLocal(c) =>
      var call := s.calls[c];
      Look(s, c, call, LOCAL, Fetching(call.path, call.version))
    case CheckHit(c, trouble) =>
      var call := s.calls[c];
      s.(calls := s.calls[c := Checked(env, s, call, trouble)])
    case ReadInfo(c) =>
      var call := s.calls[c];
      var t := if IsLocal(env, s, call.path) then Known(env, s, call.path) else 0;
      s.(calls := s.calls[c := InfoRead(call.path, call.version, t)])
    case FinishFetch(c, trouble) =>
      var call := s.calls[c];
      var r := FetchResult(env, s, call, trouble);
      var now := Uncached(env, s, call.path, call.version);
      s.(calls := s.calls[c := Fetched(call.path, call.version, Entry(r, IsLocal(env, s, call.path)), now)],
         log := s.log + {Fetch(call.path, call.version, r)})
    case StoreRequested(c) =>
      var call := s.calls[c];
      if call.entry.result.Canceled? then
        s.(calls := s.calls[c := Done(call.path, call.version, Canceled, call.current, GaveUp)])
      else
        s.(cache := s.cache[(call.path, call.version) := call.entry],
           calls := s.calls[c := StoredRequested(call.path, call.version, call.entry, call.current)])
    case StoreResolved(c) =>
      var call := s.calls[c];
      var r := call.entry.result;
      s.(cache := if r.Found? && call.version == LATEST then s.cache[(call.path, r.m.version) := call.entry]
        else s.cache,
         calls := s.calls[c := Done(call.path, call.version, r, call.current,
           if r.Error? then FetchFailed else FetchedNow)])
    case Evict(p, v) => s.(cache := s.cache - {(p, v)})
    case Edit(p, files) => s.(disk := s.disk[p := files])
    case Tick(ms) => s.(now := s.now + ms)
  }

  /** An arbitrary run: at each point any enabled action, chosen by anyone. */
  predicate IsRun(env: Env, s: State, actions: seq<Action>)
    decreases |actions|
  {
    actions == [] || (Enabled(env, s, actions[0]) && IsRun(env, Step(env, s, actions[0]), actions[1..]))
  }

  function After(env: Env, s: State, actions: seq<Action>): State
    requires IsRun(env, s, actions)
    decreases |actions|
  {
    if actions == [] then s else After(env, Step(env, s, actions[0]), actions[1..])
  }

  predicate Initial(s: State) {
    s.cache == map[] && s.calls == map[] && s.log == {}
  }

  // -------------------------------------------------------------- provenance

  /** An entry under `(path, version)` comes from a completed, not cancelled fetch of just
      that, or of the latest version, resolved to `version`. */
  predicate Explained(log: set<Fetch>, path: Path, version: Version, r: Outcome) {
    && !r.Canceled?
    && (Fetch(path, version, r) in log || (r.Found? && r.m.version == version && Fetch(path, LATEST, r) in log))
  }

  /** An entry that a call holds was in the cache under its version or the local one; an error
      that it returns from the cache was there, and one of its own fetch was fetched. */
  predicate CallExplained(log: set<Fetch>, call: Call) {
    match call
    case Hit(p, v, e) => Explained(log, p, v, e.result) || Explained(log, p, LOCAL, e.result)
    case Fetched(p, v, e, _) => Fetch(p, v, e.result) in log
    case StoredRequested(p, v, e, _) => !e.result.Canceled? && Fetch(p, v, e.result) in log
    case Done(p, v, r, _, how) =>
      && (r.Error? <==> Failed(how))
      && (how.CachedError? ==> Fetch(p, v, r) in log || Fetch(p, LOCAL, r) in log)
      && (how.FetchFailed? ==> Fetch(p, v, r) in log)
    case _ => true
  }

  predicate Provenance(s: State) {
    && (forall k :: k in s.cache ==> Explained(s.log, k.0, k.1, s.cache[k].result))
    && (forall c :: c in s.calls ==> CallExplained(s.log, s.calls[c]))
  }

  lemma ProvenanceStep(env: Env, s: State, a: Action)
    requires Provenance(s) && Enabled(env, s, a)
    ensures Provenance(Step(env, s, a))
  {
  }

  lemma {:induction false} ProvenanceAlways(env: Env, s: State, actions: seq<Action>)
    requires Provenance(s) && IsRun(env, s, actions)
    ensures Provenance(After(env, s, actions))
    decreases |actions|
  {
    if actions != [] {
      ProvenanceStep(env, s, actions[0]);
      ProvenanceAlways(env, Step(env, s, actions[0]), actions[1..]);
    }
  }

  // --------------------------------------------------------------- agreement

  /** Every version of the module is the same one, as for a module in a directory. */
  ghost predicate SameForAll(env: Env, path: Path) {
    forall v :: env.remote(path, v) == env.remote(path, LOCAL)
  }

  /** Fetching the version that "latest" resolves to gives what "latest" gave, and fetches
      are cancelled only by their caller. */
  ghost predicate Consistent(env: Env) {
    && (forall p, v :: !env.remote(p, v).Canceled?)
    && (forall p :: env.remote(p, LATEST).Found? ==>
         env.remote(p, env.remote(p, LATEST).m.version) == env.remote(p, LATEST))
  }

  /** The local version is asked for, or resolved to, only where all versions are the same. */
  ghost predicate LocalOnly(env: Env, path: Path, version: Version) {
    path !in env.locals && version == LOCAL ==> SameForAll(env, path)
  }

  ghost predicate NeverResolvesToLocal(env: Env) {
    forall p :: p !in env.locals && env.remote(p, LATEST).Found? ==> LocalOnly(env, p, env.remote(p, LATEST).m.version)
  }

  /** A request that is safe, or an edit that a later check cannot miss. */
  ghost predicate Careful(env: Env, s: State, a: Action) {
    && (a.Begin? ==> LocalOnly(env, a.path, a.version))
    && (a.Edit? && a.path in s.disk ==> Noticed(env.compiled(a.path), s.now, s.disk[a.path], a.files))
  }

  ghost predicate CarefulRun(env: Env, s: State, actions: seq<Action>)
    requires IsRun(env, s, actions)
    decreases |actions|
  {
    actions == [] || (Careful(env, s, actions[0]) && CarefulRun(env, Step(env, s, actions[0]), actions[1..]))
  }

  /** A time that was known and not recent once, and has not been passed backwards since. */
  predicate Passed(names: seq<string>, files: Files, now: int, t: nat) {
    t > 0 ==> MaxTime(names, files) >= t && (MaxTime(names, files) == t ==> t + WINDOW <= now)
  }

  /** A module fetched from disk is current unless the latest time has passed its own. */
  predicate Fresh(names: seq<string>, files: Files, now: int, m: Module) {
    Passed(names, files, now, m.commitTime)
      && (m.commitTime > 0 && MaxTime(names, files) == m.commitTime ==> ContentOf(files) == m.content)
  }

  ghost predicate EntryAgrees(env: Env, s: State, path: Path, version: Version, e: Entry) {
    if path in env.locals then
      && path in s.disk && e.volatile
      && (e.result.Found? ==>
           e.result.m.version == env.versionOf(path) && Fresh(env.compiled(path), s.disk[path], s.now, e.result.m))
    else !e.volatile && (e.result == env.remote(path, version) || e.result.Canceled?)
  }

  /** What a finished call returned is what an uncached fetch would have given then; of a local
      module only version and content count. */
  predicate SameResult(env: Env, path: Path, result: Outcome, current: Outcome) {
    if path in env.locals then
      result.Found? && current.Found? && result.m.version == current.m.version && result.m.content == current.m.content
    else result == current
  }

  /** A finished call that was not cancelled: not local, it has the result of an uncached fetch;
      local, it has exactly if nothing failed. */
  ghost predicate ResultAgrees(env: Env, path: Path, version: Version, result: Outcome, current: Outcome, how: How) {
    if path in env.locals then
      !result.Canceled? ==> (SameResult(env, path, result, current) <==> !Failed(how))
    else result == env.remote(path, version) || result.Canceled?
  }

  /** What a fetch of a local module found is what was there. */
  predicate FetchAgrees(env: Env, path: Path, result: Outcome, current: Outcome) {
    path in env.locals && result.Found? ==> SameResult(env, path, result, current)
  }

  ghost predicate CallAgrees(env: Env, s: State, call: Call) {
    && LocalOnly(env, call.path, call.version)
    && match call
       case Hit(p, v, e) => EntryAgrees(env, s, p, v, e) && !e.result.Canceled?
       case InfoRead(p, _, t) => p in env.locals ==> p in s.disk && Passed(env.compiled(p), s.disk[p], s.now, t)
       case Fetched(p, v, e, cur) => EntryAgrees(env, s, p, v, e) && FetchAgrees(env, p, e.result, cur)
       case StoredRequested(p, v, e, cur) =>
         EntryAgrees(env, s, p, v, e) && !e.result.Canceled? && FetchAgrees(env, p, e.result, cur)
       case Done(p, v, r, cur, how) => ResultAgrees(env, p, v, r, cur, how)
       case _ => true
  }

  ghost predicate CacheAgrees(env: Env, s: State) {
    forall k :: k in s.cache ==>
      EntryAgrees(env, s, k.0, k.1, s.cache[k]) && LocalOnly(env, k.0, k.1) && !s.cache[k].result.Canceled?
  }

  ghost predicate Agreement(env: Env, s: State) {
    && env.locals <= s.disk.Keys
    && CacheAgrees(env, s)
    && (forall c :: c in s.calls ==> CallAgrees(env, s, s.calls[c]))
  }

  /** A step of one caller that leaves the disk alone: the other calls and the old entries
      are as they were. */
  lemma CallerStep(env: Env, s: State, s': State, c: Caller)
    requires Agreement(env, s) && s'.disk == s.disk && s'.now == s.now && CacheAgrees(env, s')
    requires c in s'.calls && CallAgrees(env, s', s'.calls[c])
    requires s'.calls.Keys == s.calls.Keys + {c} && forall d :: d in s.calls && d != c ==> s'.calls[d] == s.calls[d]
    ensures Agreement(env, s')
  {
    forall d | d in s'.calls
      ensures CallAgrees(env, s', s'.calls[d])
    {
      if d != c {
        SameDisk(env, s, s', s.calls[d]);
      }
    }
  }

  lemma SameDisk(env: Env, s: State, s': State, call: Call)
    requires s'.disk == s.disk && s'.now == s.now && CallAgrees(env, s, call)
    ensures CallAgrees(env, s', call)
  {
  }

  lemma SameEntry(env: Env, s: State, s': State, path: Path, version: Version, e: Entry)
    requires s'.disk == s.disk && s'.now == s.now && EntryAgrees(env, s, path, version, e)
    ensures EntryAgrees(env, s', path, version, e)
  {
  }

  lemma SameCache(env: Env, s: State, s': State)
    requires s'.disk == s.disk && s'.now == s.now && CacheAgrees(env, s) && s'.cache.Keys <= s.cache.Keys
    requires forall k :: k in s'.cache ==> s'.cache[k] == s.cache[k]
    ensures CacheAgrees(env, s')
  {
  }

  lemma LookAgrees(env: Env, s: State, call: Call, e: Entry, version: Version)
    requires LocalOnly(env, call.path, call.version) && LocalOnly(env, call.path, version)
    requires EntryAgrees(env, s, call.path, version, e) && !e.result.Canceled?
    requires (version == call.version || version == LOCAL)
    ensures CallAgrees(env, s, Hit(call.path, call.version, e))
  {
  }

  lemma CheckAgrees(env: Env, s: State, call: Call, trouble: Trouble)
    requires Agreement(env, s) && call.Hit? && CallAgrees(env, s, call)
    ensures CallAgrees(env, s, Checked(env, s, call, trouble))
  {
    hide CacheAgrees, LocalOnly;
  }

  lemma FinishAgrees(env: Env, s: State, call: Call, trouble: Trouble)
    requires Agreement(env, s) && call.InfoRead? && CallAgrees(env, s, call)
    requires (trouble.Fail? ==> IsLocal(env, s, call.path))
    ensures CallAgrees(env, s,
      Fetched(call.path, call.version, Entry(FetchResult(env, s, call, trouble), IsLocal(env, s, call.path)),
        Uncached(env, s, call.path, call.version)))
  {
    hide CacheAgrees, LocalOnly;
  }

  lemma StoreAgrees(env: Env, s: State, s': State, path: Path, version: Version, e: Entry)
    requires CacheAgrees(env, s) && s'.disk == s.disk && s'.now == s.now && s'.cache == s.cache[(path, version) := e]
    requires EntryAgrees(env, s, path, version, e) && LocalOnly(env, path, version) && !e.result.Canceled?
    ensures CacheAgrees(env, s')
  {
    hide LocalOnly;
  }

  /** What "latest" resolved to may be stored under its own version. */
  lemma ResolvedAgrees(env: Env, s: State, path: Path, e: Entry)
    requires Consistent(env) && NeverResolvesToLocal(env) && EntryAgrees(env, s, path, LATEST, e) && e.result.Found?
    ensures EntryAgrees(env, s, path, e.result.m.version, e) && LocalOnly(env, path, e.result.m.version)
  {
  }

  /** The disk after time has passed or edits were made that a check cannot miss. */
  predicate DiskAges(env: Env, s: State, s': State) {
    && s'.disk.Keys == s.disk.Keys && s.now <= s'.now
    && forall p :: p in s.disk ==> s'.disk[p] == s.disk[p] || Noticed(env.compiled(p), s.now, s.disk[p], s'.disk[p])
  }

  lemma AgedPassed(names: seq<string>, files: Files, now: int, files': Files, now': int, t: nat)
    requires now <= now' && (files' == files || Noticed(names, now, files, files')) && Passed(names, files, now, t)
    ensures Passed(names, files', now', t)
    ensures t > 0 && MaxTime(names, files') == t ==> MaxTime(names, files) == t && ContentOf(files') == ContentOf(files)
  {
    hide MaxTime, ContentOf;
  }

  lemma AgedEntry(env: Env, s: State, s': State, path: Path, version: Version, e: Entry)
    requires DiskAges(env, s, s') && EntryAgrees(env, s, path, version, e)
    ensures EntryAgrees(env, s', path, version, e)
  {
    hide Noticed, Passed;
    if path in env.locals && e.result.Found? {
      AgedPassed(env.compiled(path), s.disk[path], s.now, s'.disk[path], s'.now, e.result.m.commitTime);
    }
  }

  lemma AgedCall(env: Env, s: State, s': State, call: Call)
    requires DiskAges(env, s, s') && CallAgrees(env, s, call)
    ensures CallAgrees(env, s', call)
  {
    hide LocalOnly, EntryAgrees, ResultAgrees, Noticed, Passed;
    match call
    case Hit(p, v, e) => AgedEntry(env, s, s', p, v, e);
    case Fetched(p, v, e, _) => AgedEntry(env, s, s', p, v, e);
    case StoredRequested(p, v, e, _) => AgedEntry(env, s, s', p, v, e);
    case InfoRead(p, _, t) =>
      if p in env.locals {
        AgedPassed(env.compiled(p), s.disk[p], s.now, s'.disk[p], s'.now, t);
      }
    case _ =>
  }

  /** Time and noticed edits keep the agreement. */
  lemma DiskStep(env: Env, s: State, s': State)
    requires Agreement(env, s) && s'.cache == s.cache && s'.calls == s.calls && DiskAges(env, s, s')
    ensures Agreement(env, s')
  {
    hide LocalOnly, EntryAgrees, CallAgrees, Noticed;
    forall k | k in s.cache
      ensures EntryAgrees(env, s', k.0, k.1, s.cache[k])
    {
      AgedEntry(env, s, s', k.0, k.1, s.cache[k]);
    }
    forall c | c in s.calls
      ensures CallAgrees(env, s', s.calls[c])
    {
      AgedCall(env, s, s', s.calls[c]);
    }
  }

  lemma AgreementStep(env: Env, s: State, a: Action)
    requires Consistent(env) && NeverResolvesToLocal(env) && Agreement(env, s) && Enabled(env, s, a)
    requires Careful(env, s, a)
    ensures Agreement(env, Step(env, s, a))
  {
    hide Noticed, Consistent, NeverResolvesToLocal, LocalOnly, Agreement, CallAgrees;
    match a
    case Begin(c, p, v) => BeginStep(env, s, c, p, v);
    case LookExact(c) => LookStep(env, s, c, s.calls[c].version, TryLocal(s.calls[c].path, s.calls[c].version));
    case LookLocal(c) => LookStep(env, s, c, LOCAL, Fetching(s.calls[c].path, s.calls[c].version));
    case CheckHit(c, trouble) => CheckStep(env, s, c, trouble);
    case ReadInfo(c) => InfoStep(env, s, c);
    case FinishFetch(c, trouble) => FinishStep(env, s, c, trouble);
    case StoreRequested(c) => StoreRequestedStep(env, s, c);
    case StoreResolved(c) => StoreResolvedStep(env, s, c);
    case Evict(p, v) => EvictStep(env, s, p, v);
    case Edit(p, files) => DiskStep(env, s, Step(env, s, a));
    case Tick(ms) => DiskStep(env, s, Step(env, s, a));
  }

  lemma BeginStep(env: Env, s: State, c: Caller, p: Path, v: Version)
    requires Agreement(env, s) && c !in s.calls && LocalOnly(env, p, v)
    ensures Agreement(env, Step(env, s, Begin(c, p, v)))
  {
    hide LocalOnly, CacheAgrees;
    var s' := Step(env, s, Begin(c, p, v));
    SameCache(env, s, s');
    CallerStep(env, s, s', c);
  }

  lemma CheckStep(env: Env, s: State, c: Caller, trouble: Trouble)
    requires Agreement(env, s) && Enabled(env, s, CheckHit(c, trouble))
    ensures Agreement(env, Step(env, s, CheckHit(c, trouble)))
  {
    hide LocalOnly, CacheAgrees, CallAgrees, Checked;
    var s' := Step(env, s, CheckHit(c, trouble));
    CheckAgrees(env, s, s.calls[c], trouble);
    SameCache(env, s, s');
    SameDisk(env, s, s', s'.calls[c]);
    CallerStep(env, s, s', c);
  }

  lemma InfoStep(env: Env, s: State, c: Caller)
    requires Agreement(env, s) && Enabled(env, s, ReadInfo(c))
    ensures Agreement(env, Step(env, s, ReadInfo(c)))
  {
    hide LocalOnly, CacheAgrees;
    var s' := Step(env, s, ReadInfo(c));
    SameCache(env, s, s');
    CallerStep(env, s, s', c);
  }

  lemma FinishStep(env: Env, s: State, c: Caller, trouble: Trouble)
    requires Agreement(env, s) && Enabled(env, s, FinishFetch(c, trouble))
    ensures Agreement(env, Step(env, s, FinishFetch(c, trouble)))
  {
    hide LocalOnly, CacheAgrees, CallAgrees, FetchResult;
    var s' := Step(env, s, FinishFetch(c, trouble));
    FinishAgrees(env, s, s.calls[c], trouble);
    SameCache(env, s, s');
    SameDisk(env, s, s', s'.calls[c]);
    CallerStep(env, s, s', c);
  }

  lemma EvictStep(env: Env, s: State, p: Path, v: Version)
    requires Agreement(env, s)
    ensures Agreement(env, Step(env, s, Evict(p, v)))
  {
    hide LocalOnly, CacheAgrees, CallAgrees;
    var s' := Step(env, s, Evict(p, v));
    SameCache(env, s, s');
    forall c | c in s.calls
      ensures CallAgrees(env, s', s.calls[c])
    {
      SameDisk(env, s, s', s.calls[c]);
    }
  }

  lemma LookStep(env: Env, s: State, c: Caller, version: Version, missed: Call)
    requires Agreement(env, s) && c in s.calls && (version == s.calls[c].version || version == LOCAL)
    requires missed.path == s.calls[c].path && missed.version == s.calls[c].version
    requires (missed.TryLocal? || missed.Fetching?)
    ensures Agreement(env, Look(s, c, s.calls[c], version, missed))
  {
    hide LocalOnly, EntryAgrees;
    var call := s.calls[c];
    var s' := Look(s, c, call, version, missed);
    var key := (call.path, version);
    SameCache(env, s, s');
    if key in s.cache {
      LookAgrees(env, s, call, s.cache[key], version);
      SameDisk(env, s, s', s'.calls[c]);
    }
    CallerStep(env, s, s', c);
  }

  lemma StoreRequestedStep(env: Env, s: State, c: Caller)
    requires Agreement(env, s) && Enabled(env, s, StoreRequested(c))
    ensures Agreement(env, Step(env, s, StoreRequested(c)))
  {
    hide LocalOnly, EntryAgrees, CacheAgrees;
    var s' := Step(env, s, StoreRequested(c));
    var call := s.calls[c];
    if call.entry.result.Canceled? {
      SameCache(env, s, s');
    } else {
      StoreAgrees(env, s, s', call.path, call.version, call.entry);
      SameEntry(env, s, s', call.path, call.version, call.entry);
    }
    CallerStep(env, s, s', c);
  }

  lemma StoreResolvedStep(env: Env, s: State, c: Caller)
    requires Consistent(env) && NeverResolvesToLocal(env) && Agreement(env, s) && Enabled(env, s, StoreResolved(c))
    ensures Agreement(env, Step(env, s, StoreResolved(c)))
  {
    hide LocalOnly, CacheAgrees, Consistent, NeverResolvesToLocal;
    var s' := Step(env, s, StoreResolved(c));
    var call := s.calls[c];
    var r := call.entry.result;
    if r.Found? && call.version == LATEST {
      ResolvedAgrees(env, s, call.path, call.entry);
      StoreAgrees(env, s, s', call.path, r.m.version, call.entry);
    } else {
      SameCache(env, s, s');
    }
    CallerStep(env, s, s', c);
  }

  /** Under every interleaving of lookups, fetches and stores of any number of callers, with
      evictions and edits in between, cache and calls agree with fetching without a cache,
      provided requests are safe and edits can be noticed. */
  lemma {:induction false} AgreementAlways(env: Env, s: State, actions: seq<Action>)
    requires Consistent(env) && NeverResolvesToLocal(env)
    requires Agreement(env, s) && IsRun(env, s, actions) && CarefulRun(env, s, actions)
    ensures Agreement(env, After(env, s, actions))
    decreases |actions|
  {
    hide Consistent, NeverResolvesToLocal, Agreement, Careful, Enabled, Step;
    if actions != [] {
      AgreementStep(env, s, actions[0]);
      AgreementAlways(env, Step(env, s, actions[0]), actions[1..]);
    }
  }

  lemma InitialAgreement(env: Env, s: State)
    requires Initial(s) && env.locals <= s.disk.Keys
    ensures Agreement(env, s) && Provenance(s)
  {
  }

  // ------------------------------------------------------------ without errors

  predicate Fails(a: Action) {
    (a.FinishFetch? && a.trouble.Fail?) || (a.CheckHit? && a.trouble.Fail?)
  }

  /** No fetch of a local module has failed, and no check. */
  predicate Clean(env: Env, s: State) {
    && env.locals <= s.disk.Keys
    && (forall f :: f in s.log && f.path in env.locals ==> !f.result.Error?)
    && (forall c :: c in s.calls && s.calls[c].path in env.locals && s.calls[c].Done? ==> !s.calls[c].how.CheckFailed?)
  }

  lemma CleanStep(env: Env, s: State, a: Action)
    requires Clean(env, s) && Enabled(env, s, a) && !Fails(a)
    ensures Clean(env, Step(env, s, a))
  {
    hide KnownTime, HasChanged, ContentOf;
  }

  lemma {:induction false} CleanAlways(env: Env, s: State, actions: seq<Action>)
    requires Clean(env, s) && IsRun(env, s, actions) && forall i :: 0 <= i < |actions| ==> !Fails(actions[i])
    ensures Clean(env, After(env, s, actions))
    decreases |actions|
  {
    hide Clean, Enabled, Step;
    if actions != [] {
      CleanStep(env, s, actions[0]);
      CleanAlways(env, Step(env, s, actions[0]), actions[1..]);
    }
  }
}
