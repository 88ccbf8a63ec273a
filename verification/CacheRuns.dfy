/** Runs of the module cache in which a caller gets a wrong answer, and which conditions rule
    them out exactly. */
module CacheRuns {
  import opened Basics
  import opened LocalModules
  import opened ModuleCache
  import opened CacheReads

  // ---------------------------------------------------------- building runs

  lemma {:induction false} OneMore(env: Env, s: State, run: seq<Action>, a: Action)
    requires IsRun(env, s, run) && Enabled(env, After(env, s, run), a)
    ensures IsRun(env, s, run + [a]) && After(env, s, run + [a]) == Step(env, After(env, s, run), a)
    decreases |run|
  {
    hide Enabled, Step;
    if run == [] {
      assert [a][1..] == [] && run + [a] == [a];
    } else {
      assert (run + [a])[1..] == run[1..] + [a];
      OneMore(env, Step(env, s, run[0]), run[1..], a);
    }
  }

  lemma {:induction false} Joined(env: Env, s: State, a: seq<Action>, b: seq<Action>)
    requires IsRun(env, s, a)
    ensures IsRun(env, s, a + b) <==> IsRun(env, After(env, s, a), b)
    ensures IsRun(env, s, a + b) ==> After(env, s, a + b) == After(env, After(env, s, a), b)
    ensures IsRun(env, s, a + b) ==>
      (CarefulRun(env, s, a + b) <==> CarefulRun(env, s, a) && CarefulRun(env, After(env, s, a), b))
    decreases |a|
  {
    hide Enabled, Step, Careful;
    if a == [] {
      assert a + b == b;
    } else {
      assert (a + b)[1..] == a[1..] + b;
      Joined(env, Step(env, s, a[0]), a[1..], b);
    }
  }

  lemma Nothing(env: Env, s: State)
    ensures IsRun(env, s, []) && After(env, s, []) == s && CarefulRun(env, s, [])
  {
  }

  // ------------------------------------------------------------- single calls

  /** Caller `c` asks for `v` of `p`, which is not cached. */
  function FetchNew(c: Caller, p: Path, v: Version, trouble: Trouble): seq<Action> {
    [Begin(c, p, v), LookExact(c), LookLocal(c), ReadInfo(c), FinishFetch(c, trouble), StoreRequested(c),
      StoreResolved(c)]
  }

  function FetchLocal(c: Caller, p: Path, trouble: Trouble): seq<Action> {
    FetchNew(c, p, LOCAL, trouble)
  }

  predicate NotCached(s: State, p: Path, v: Version) {
    (p, v) !in s.cache && (p, LOCAL) !in s.cache
  }

  /** What that leaves. */
  function Stored(env: Env, s: State, c: Caller, p: Path, v: Version, r: Outcome): State {
    var e := Entry(r, IsLocal(env, s, p));
    var cache := s.cache[(p, v) := e];
    s.(cache := if r.Found? && v == LATEST then cache[(p, r.m.version) := e] else cache,
       calls := s.calls[c := Done(p, v, r, Uncached(env, s, p, v), if r.Error? then FetchFailed else FetchedNow)],
       log := s.log + {Fetch(p, v, r)})
  }

  function FirstResult(env: Env, s: State, p: Path, v: Version, trouble: Trouble): Outcome
    requires !trouble.Cancel?
  {
    if trouble.Fail? then Error(trouble.code) else Uncached(env, s, p, v)
  }

  /** Where the fetch stands when it has read the module's time. */
  function Asked(env: Env, s: State, c: Caller, p: Path, v: Version): State {
    s.(calls := s.calls[c := InfoRead(p, v, if IsLocal(env, s, p) then Known(env, s, p) else 0)])
  }

  lemma Asks(env: Env, s: State, c: Caller, p: Path, v: Version)
    requires c !in s.calls && NotCached(s, p, v)
    ensures var run := [Begin(c, p, v), LookExact(c), LookLocal(c), ReadInfo(c)];
      IsRun(env, s, run) && After(env, s, run) == Asked(env, s, c, p, v)
  {
    hide IsRun, After, KnownTime;
    Nothing(env, s);
    OneMore(env, s, [], Begin(c, p, v));
    var r1 := [] + [Begin(c, p, v)];
    OneMore(env, s, r1, LookExact(c));
    var r2 := r1 + [LookExact(c)];
    OneMore(env, s, r2, LookLocal(c));
    var r3 := r2 + [LookLocal(c)];
    OneMore(env, s, r3, ReadInfo(c));
    assert r3 + [ReadInfo(c)] == [Begin(c, p, v), LookExact(c), LookLocal(c), ReadInfo(c)];
  }

  lemma Stores(env: Env, s: State, c: Caller, p: Path, v: Version, trouble: Trouble)
    requires !trouble.Cancel? && (trouble.Fail? ==> IsLocal(env, s, p)) && !FirstResult(env, s, p, v, trouble).Canceled?
    ensures var run, s1 := [FinishFetch(c, trouble), StoreRequested(c), StoreResolved(c)], Asked(env, s, c, p, v);
      IsRun(env, s1, run) && After(env, s1, run) == Stored(env, s, c, p, v, FirstResult(env, s, p, v, trouble))
  {
    hide IsRun, After, KnownTime, ContentOf;
    var s1 := Asked(env, s, c, p, v);
    Nothing(env, s1);
    OneMore(env, s1, [], FinishFetch(c, trouble));
    var r1 := [] + [FinishFetch(c, trouble)];
    OneMore(env, s1, r1, StoreRequested(c));
    var r2 := r1 + [StoreRequested(c)];
    OneMore(env, s1, r2, StoreResolved(c));
    assert r2 + [StoreResolved(c)] == [FinishFetch(c, trouble), StoreRequested(c), StoreResolved(c)];
  }

  lemma Fetches(env: Env, s: State, c: Caller, p: Path, v: Version, trouble: Trouble)
    requires c !in s.calls && NotCached(s, p, v) && !trouble.Cancel? && (trouble.Fail? ==> IsLocal(env, s, p))
    requires !FirstResult(env, s, p, v, trouble).Canceled?
    ensures IsRun(env, s, FetchNew(c, p, v, trouble))
    ensures After(env, s, FetchNew(c, p, v, trouble)) == Stored(env, s, c, p, v, FirstResult(env, s, p, v, trouble))
  {
    hide *;
    var a, b := [Begin(c, p, v), LookExact(c), LookLocal(c), ReadInfo(c)],
      [FinishFetch(c, trouble), StoreRequested(c), StoreResolved(c)];
    Asks(env, s, c, p, v);
    Stores(env, s, c, p, v, trouble);
    Joined(env, s, a, b);
    assert a + b == FetchNew(c, p, v, trouble) by { FetchParts(c, p, v, trouble); }
  }

  lemma FetchParts(c: Caller, p: Path, v: Version, trouble: Trouble)
    ensures FetchNew(c, p, v, trouble)
      == [Begin(c, p, v), LookExact(c), LookLocal(c), ReadInfo(c)]
        + [FinishFetch(c, trouble), StoreRequested(c), StoreResolved(c)]
  {
  }

  /** Caller `c` asks for `v` of `p`, which is cached under the local version only. */
  function AskOther(c: Caller, p: Path, v: Version): seq<Action> {
    [Begin(c, p, v), LookExact(c), LookLocal(c), CheckHit(c, NoTrouble)]
  }

  lemma AsksOther(env: Env, s: State, c: Caller, p: Path, v: Version)
    requires c !in s.calls && (p, LOCAL) in s.cache && (p, v) !in s.cache
    ensures IsRun(env, s, AskOther(c, p, v))
    ensures After(env, s, AskOther(c, p, v))
      == s.(calls := s.calls[c := Checked(env, s, Hit(p, v, s.cache[(p, LOCAL)]), NoTrouble)])
  {
    hide IsRun, After, Checked;
    Nothing(env, s);
    OneMore(env, s, [], Begin(c, p, v));
    var r1 := [] + [Begin(c, p, v)];
    OneMore(env, s, r1, LookExact(c));
    var r2 := r1 + [LookExact(c)];
    OneMore(env, s, r2, LookLocal(c));
    var r3 := r2 + [LookLocal(c)];
    OneMore(env, s, r3, CheckHit(c, NoTrouble));
    CheckedSame(env, s, After(env, s, r3), After(env, s, r3).calls[c]);
    assert r3 + [CheckHit(c, NoTrouble)] == AskOther(c, p, v);
  }

  lemma CheckedSame(env: Env, s: State, s': State, call: Call)
    requires s'.disk == s.disk && s'.now == s.now && call.Hit?
    ensures Checked(env, s', call, NoTrouble) == Checked(env, s, call, NoTrouble)
  {
  }

  /** Caller `c` asks for `v` of `p`, which is cached. */
  function Ask(c: Caller, p: Path, v: Version): seq<Action> {
    [Begin(c, p, v), LookExact(c), CheckHit(c, NoTrouble)]
  }

  lemma AsksCached(env: Env, s: State, c: Caller, p: Path, v: Version)
    requires c !in s.calls && (p, v) in s.cache
    ensures IsRun(env, s, Ask(c, p, v))
    ensures After(env, s, Ask(c, p, v))
      == s.(calls := s.calls[c := Checked(env, s, Hit(p, v, s.cache[(p, v)]), NoTrouble)])
  {
    hide IsRun, After, Checked;
    Nothing(env, s);
    OneMore(env, s, [], Begin(c, p, v));
    var r1 := [] + [Begin(c, p, v)];
    OneMore(env, s, r1, LookExact(c));
    var r2 := r1 + [LookExact(c)];
    OneMore(env, s, r2, CheckHit(c, NoTrouble));
    CheckedSame(env, s, After(env, s, r2), After(env, s, r2).calls[c]);
    assert r2 + [CheckHit(c, NoTrouble)] == Ask(c, p, v);
  }

  // --------------------------------------------------------- the cache at work

  /** A cached answer to a second call: the same, and without another fetch. */
  ghost predicate Reused(env: Env, s: State, run: seq<Action>, first: Caller, second: Caller) {
    && IsRun(env, s, run) && first in After(env, s, run).calls && second in After(env, s, run).calls
    && var a, b := After(env, s, run).calls[first], After(env, s, run).calls[second];
       && a.Done? && b.Done? && b.result == a.result
       && b.how == (if a.result.Found? then CachedModule else CachedError)
       && After(env, s, run).log == {Fetch(a.path, a.version, a.result)}
  }

  /** A second call for the same version is answered from the cache, unless the time of a local
      module was not known. */
  lemma SecondCallHits(env: Env, s: State, p: Path, v: Version)
    requires Initial(s) && !Uncached(env, s, p, v).Canceled? && (IsLocal(env, s, p) ==> Known(env, s, p) > 0)
    ensures Reused(env, s, FetchNew(0, p, v, NoTrouble) + Ask(1, p, v), 0, 1)
  {
    hide IsRun, After, ContentOf;
    Fetches(env, s, 0, p, v, NoTrouble);
    var s1 := Stored(env, s, 0, p, v, Uncached(env, s, p, v));
    AsksCached(env, s1, 1, p, v);
    Joined(env, s, FetchNew(0, p, v, NoTrouble), Ask(1, p, v));
  }

  /** So is a call for the version that the latest one turned out to be. */
  lemma ResolvedVersionHits(env: Env, s: State, p: Path)
    requires Initial(s) && Uncached(env, s, p, LATEST).Found? && (IsLocal(env, s, p) ==> Known(env, s, p) > 0)
    ensures Reused(env, s, FetchNew(0, p, LATEST, NoTrouble) + Ask(1, p, Uncached(env, s, p, LATEST).m.version), 0, 1)
  {
    hide IsRun, After, ContentOf;
    var r := Uncached(env, s, p, LATEST);
    Fetches(env, s, 0, p, LATEST, NoTrouble);
    var s1 := Stored(env, s, 0, p, LATEST, r);
    AsksCached(env, s1, 1, p, r.m.version);
    Joined(env, s, FetchNew(0, p, LATEST, NoTrouble), Ask(1, p, r.m.version));
  }

  // ---------------------------------------------- the local version elsewhere

  const EMPTY := State(map[], map[], map[], {}, 0)

  /** The condition on the local version cannot be dropped: for every module that is not
      the same in all versions there is a run in which a caller gets the wrong answer. */
  lemma LocalVersionPoisons(env: Env, p: Path, v: Version)
    requires Consistent(env) && p !in env.locals && env.remote(p, v) != env.remote(p, LOCAL)
    ensures var run := FetchLocal(0, p, NoTrouble) + AskOther(1, p, v);
      && IsRun(env, EMPTY, run) && 1 in After(env, EMPTY, run).calls
      && var call := After(env, EMPTY, run).calls[1];
         call.Done? && call.result == env.remote(p, LOCAL)
           && !ResultAgrees(env, p, v, call.result, call.current, call.how)
  {
    hide IsRun, After;
    Fetches(env, EMPTY, 0, p, LOCAL, NoTrouble);
    var s := Stored(env, EMPTY, 0, p, LOCAL, env.remote(p, LOCAL));
    AsksOther(env, s, 1, p, v);
    Joined(env, EMPTY, FetchLocal(0, p, NoTrouble), AskOther(1, p, v));
  }

  // -------------------------------------------------------------- stuck errors

  /** One failure to read a local module stays: later callers get the error although nothing is
      wrong any more, whatever version they ask for. */
  lemma ErrorSticks(env: Env, s: State, p: Path, v: Version, code: int)
    requires Initial(s) && IsLocal(env, s, p) && v != LOCAL
    ensures var run := FetchLocal(0, p, Fail(code)) + AskOther(1, p, v);
      && IsRun(env, s, run) && 1 in After(env, s, run).calls
      && var call := After(env, s, run).calls[1];
         call.Done? && call.result == Error(code) && call.how == CachedError && call.current.Found?
  {
    hide IsRun, After, KnownTime, ContentOf;
    Fetches(env, s, 0, p, LOCAL, Fail(code));
    var s' := Stored(env, s, 0, p, LOCAL, Error(code));
    AsksOther(env, s', 1, p, v);
    Joined(env, s, FetchLocal(0, p, Fail(code)), AskOther(1, p, v));
  }

  // -------------------------------------------------------------- missed edits

  /** A finished call that returned a local module which was not the one on disk. */
  predicate Stale(env: Env, call: Call) {
    call.Done? && call.path in env.locals && call.result.Found?
      && !SameResult(env, call.path, call.result, call.current)
  }

  /** That is, not the one that was there when the call last looked. */
  lemma StaleExactly(env: Env, s: State, actions: seq<Action>, c: Caller)
    requires Initial(s) && env.locals <= s.disk.Keys && IsRun(env, s, actions)
    requires c in After(env, s, actions).calls && After(env, s, actions).calls[c].Done?
    ensures LastReading(env, s, actions, c, None).Some?
    ensures var call, r := After(env, s, actions).calls[c], LastReading(env, s, actions, c, None).value;
      Stale(env, call) <==>
        call.path in env.locals && call.result.Found? && !OnDisk(env, call.path, r.disk, call.result)
  {
    hide After, IsRun, LastReading, ContentOf;
    CurrentWas(env, s, actions, c);
  }

  predicate AnyStale(env: Env, s: State) {
    exists c :: c in s.calls && Stale(env, s.calls[c])
  }

  /** Careful actions before and after an edit of `p`; those before leave the disk as it is. */
  ghost predicate Around(env: Env, s: State, p: Path, files: Files, before: seq<Action>, after: seq<Action>) {
    && IsRun(env, s, before) && CarefulRun(env, s, before) && After(env, s, before).disk == s.disk
    && var s1 := After(env, s, before);
       p in s1.disk && IsRun(env, Step(env, s1, Edit(p, files)), after)
         && CarefulRun(env, Step(env, s1, Edit(p, files)), after)
  }

  ghost function AfterEdit(env: Env, s: State, p: Path, files: Files, before: seq<Action>, after: seq<Action>): State
    requires Around(env, s, p, files, before, after)
  {
    After(env, Step(env, After(env, s, before), Edit(p, files)), after)
  }

  /** An edit is safe if no careful run around it lets a caller get a stale module. */
  ghost predicate SafeEdit(env: Env, s: State, p: Path, files: Files) {
    forall before, after :: Around(env, s, p, files, before, after) ==>
      !AnyStale(env, AfterEdit(env, s, p, files, before, after))
  }

  lemma CarefulFetch(env: Env, s: State, p: Path)
    requires p in env.locals && IsRun(env, s, FetchLocal(0, p, NoTrouble))
    ensures CarefulRun(env, s, FetchLocal(0, p, NoTrouble))
  {
    hide After, IsRun, Step, Enabled;
    CarefulWithoutEdits(env, s, FetchLocal(0, p, NoTrouble), p);
  }

  /** A run without edits that asks for a local module only is careful. */
  lemma {:induction false} CarefulWithoutEdits(env: Env, s: State, run: seq<Action>, p: Path)
    requires p in env.locals && IsRun(env, s, run)
    requires forall i :: 0 <= i < |run| ==> !run[i].Edit? && (run[i].Begin? ==> run[i].path == p)
    ensures CarefulRun(env, s, run)
    decreases |run|
  {
    hide Step, Enabled;
    if run != [] {
      CarefulWithoutEdits(env, Step(env, s, run[0]), run[1..], p);
    }
  }

  /** A module that was stored with the time `t` and is not like the files, while the latest
      time is known and has not passed `t`: the next caller gets it. */
  lemma StaleHit(env: Env, s: State, p: Path, m: Module)
    requires IsLocal(env, s, p) && 1 !in s.calls && (p, LOCAL) in s.cache
    requires s.cache[(p, LOCAL)] == Entry(Found(m), true)
    requires 0 < Known(env, s, p) <= m.commitTime && ContentOf(s.disk[p]) != m.content
    ensures IsRun(env, s, Ask(1, p, LOCAL)) && CarefulRun(env, s, Ask(1, p, LOCAL))
    ensures AnyStale(env, After(env, s, Ask(1, p, LOCAL)))
  {
    hide IsRun, After, CarefulRun, KnownTime, ContentOf;
    AsksCached(env, s, 1, p, LOCAL);
    CarefulWithoutEdits(env, s, Ask(1, p, LOCAL), p);
    var s' := After(env, s, Ask(1, p, LOCAL));
    assert 1 in s'.calls && Stale(env, s'.calls[1]);
  }

  /** The state after the module was fetched and then edited. */
  function Edited(env: Env, s: State, p: Path, files: Files): State
    requires IsLocal(env, s, p)
  {
    var r := Uncached(env, s, p, LOCAL);
    Stored(env, s, 0, p, LOCAL, r).(disk := s.disk[p := files])
  }

  /** After an edit that is not noticed a caller gets a stale module, at once or after one more
      edit, which is noticed itself. */
  lemma MissedEditShows(env: Env, s: State, p: Path, files: Files) returns (after: seq<Action>)
    requires Initial(s) && IsLocal(env, s, p) && MaxTime(env.compiled(p), s.disk[p]) + WINDOW <= s.now
    requires !Noticed(env.compiled(p), s.now, s.disk[p], files)
    ensures var s2 := Edited(env, s, p, files);
      IsRun(env, s2, after) && CarefulRun(env, s2, after) && AnyStale(env, After(env, s2, after))
  {
    hide IsRun, After, CarefulRun, MaxTime, ContentOf;
    var names, t := env.compiled(p), MaxTime(env.compiled(p), s.disk[p]);
    var s2 := Edited(env, s, p, files);
    var m := Module(env.versionOf(p), ContentOf(s.disk[p]), t);
    if MaxTime(names, files) > 0 && ContentOf(files) != ContentOf(s.disk[p]) {
      StaleHit(env, s2, p, m);
      after := Ask(1, p, LOCAL);
    } else {
      var files' := Disguise(names, s.disk[p]);
      var s3 := Step(env, s2, Edit(p, files'));
      StaleHit(env, s3, p, m);
      Nothing(env, s2);
      OneMore(env, s2, [], Edit(p, files'));
      var first := [Edit(p, files')];
      assert [] + first == first;
      assert CarefulRun(env, s2, first) by { CarefulOne(env, s2, Edit(p, files')); }
      Joined(env, s2, first, Ask(1, p, LOCAL));
      after := first + Ask(1, p, LOCAL);
    }
  }

  lemma CarefulOne(env: Env, s: State, a: Action)
    requires Enabled(env, s, a) && Careful(env, s, a) && IsRun(env, s, [a])
    ensures CarefulRun(env, s, [a])
  {
    hide Enabled, Step, Careful;
  }

  lemma {:induction false} NowGrows(env: Env, s: State, run: seq<Action>)
    requires IsRun(env, s, run)
    ensures s.now <= After(env, s, run).now
    decreases |run|
  {
    if run != [] {
      NowGrows(env, Step(env, s, run[0]), run[1..]);
    }
  }

  lemma NoneStale(env: Env, s: State)
    requires Agreement(env, s) && Provenance(s)
    ensures !AnyStale(env, s)
  {
    hide LocalOnly, EntryAgrees, CacheAgrees, SameResult;
    forall c | c in s.calls
      ensures !Stale(env, s.calls[c])
    {
      assert CallAgrees(env, s, s.calls[c]) && CallExplained(s.log, s.calls[c]);
    }
  }

  lemma NoticedIsSafe(env: Env, s: State, p: Path, files: Files, before: seq<Action>, after: seq<Action>)
    requires Initial(s) && env.locals <= s.disk.Keys && Consistent(env) && NeverResolvesToLocal(env)
    requires p in s.disk && MaxTime(env.compiled(p), s.disk[p]) + WINDOW <= s.now
    requires Noticed(env.compiled(p), s.now, s.disk[p], files) && Around(env, s, p, files, before, after)
    ensures !AnyStale(env, AfterEdit(env, s, p, files, before, after))
  {
    hide IsRun, After, CarefulRun, Consistent, NeverResolvesToLocal, Agreement, Provenance, AnyStale, MaxTime,
         ContentOf;
    InitialAgreement(env, s);
    var s1 := After(env, s, before);
    AgreementAlways(env, s, before);
    ProvenanceAlways(env, s, before);
    NowGrows(env, s, before);
    var a := Edit(p, files);
    AgreementStep(env, s1, a);
    ProvenanceStep(env, s1, a);
    var s2 := Step(env, s1, a);
    AgreementAlways(env, s2, after);
    ProvenanceAlways(env, s2, after);
    NoneStale(env, After(env, s2, after));
  }

  /** Of a module whose latest time is not recent, exactly the edits that a check can notice are
      safe. */
  lemma SafeExactly(env: Env, s: State, p: Path, files: Files)
    requires Initial(s) && env.locals <= s.disk.Keys && Consistent(env) && NeverResolvesToLocal(env)
    requires IsLocal(env, s, p) && MaxTime(env.compiled(p), s.disk[p]) + WINDOW <= s.now
    ensures SafeEdit(env, s, p, files) <==> Noticed(env.compiled(p), s.now, s.disk[p], files)
  {
    hide IsRun, After, CarefulRun, Consistent, NeverResolvesToLocal, AnyStale, MaxTime, ContentOf, Noticed, Around;
    if Noticed(env.compiled(p), s.now, s.disk[p], files) {
      forall before, after | Around(env, s, p, files, before, after)
        ensures !AnyStale(env, AfterEdit(env, s, p, files, before, after))
      {
        NoticedIsSafe(env, s, p, files, before, after);
      }
    } else {
      var after := MissedEditShows(env, s, p, files);
      var before := FetchLocal(0, p, NoTrouble);
      AroundMissed(env, s, p, files, after);
      assert AnyStale(env, AfterEdit(env, s, p, files, before, after));
    }
  }

  lemma AroundMissed(env: Env, s: State, p: Path, files: Files, after: seq<Action>)
    requires Initial(s) && IsLocal(env, s, p)
    requires IsRun(env, Edited(env, s, p, files), after) && CarefulRun(env, Edited(env, s, p, files), after)
    ensures Around(env, s, p, files, FetchLocal(0, p, NoTrouble), after)
    ensures AfterEdit(env, s, p, files, FetchLocal(0, p, NoTrouble), after)
      == After(env, Edited(env, s, p, files), after)
  {
    hide IsRun, After, CarefulRun, KnownTime, ContentOf;
    Fetches(env, s, 0, p, LOCAL, NoTrouble);
    CarefulFetch(env, s, p);
  }
}
