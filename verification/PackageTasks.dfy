/** The second phase: one task for each directory, all sharing the same lists under a lock. */
module PackageTasks {
  import opened Basics
  import opened PackageFiles

  datatype LoadResult = Found(name: string) | NotFound | Invalid | Unexpected(code: int)

  datatype Meta = Meta(dir: string, name: string)

  /** Where a task stands. Each constructor up to `Report` names what the task does next. */
  datatype PC =
    | Ready | Load | MarkInvalid | MarkEmpty(message: bool) | Add(name: string) | Report(message: bool)
    | Skipped | Added | Reported | Errored(code: int)
  {
    predicate Final() { Skipped? || Added? || Reported? || Errored? }
  }


  /** What phase 1 leaves, and what loading each directory's files gives. */
  datatype Job = Job(dirs: set<string>, incomplete: set<string>, states: seq<State>, load: string -> LoadResult)

  datatype Shared = Shared(pc: map<string, PC>, incomplete: set<string>, metas: seq<Meta>, states: seq<State>,
    error: Option<int>)

  function Start(j: Job): Shared {
    Shared(map d | d in j.dirs :: Ready, j.incomplete, [], j.states, None)
  }

  /** The next step of the task for `d`; a task that is done stays as it is. */
  function Step(j: Job, s: Shared, d: string): Shared {
    if d !in s.pc then s
    else
      match s.pc[d]
      case Ready => s.(pc := s.pc[d := if d in s.incomplete then Skipped else Load])
      case Load =>
        (match j.load(d)
         case Found(name) => s.(pc := s.pc[d := Add(name)])
         case NotFound => s.(pc := s.pc[d := MarkEmpty(false)])
         case Invalid => s.(pc := s.pc[d := MarkInvalid])
         case Unexpected(code) => s.(pc := s.pc[d := Errored(code)], error := if s.error.None? then Some(code)
           else s.error))
      case MarkInvalid => s.(pc := s.pc[d := MarkEmpty(true)], incomplete := s.incomplete + {d})
      case MarkEmpty(message) => s.(pc := s.pc[d := Report(message)], incomplete := s.incomplete + {d})
      case Add(name) => s.(pc := s.pc[d := Added], metas := s.metas + [Meta(d, name)])
      case Report(message) => s.(pc := s.pc[d := Reported], states := s.states + [State(d, NotSupported, message)])
      case _ => s
  }

  /** Running the tasks in the order of a schedule. */
  function Run(j: Job, schedule: seq<string>): Shared {
    if schedule == [] then Start(j) else Step(j, Run(j, schedule[..|schedule| - 1]), schedule[|schedule| - 1])
  }

  // ------------------------------------------------------------- invariants

  predicate PcFits(j: Job, d: string, pc: PC) {
    match pc
    case Ready => true
    case Skipped => d in j.incomplete
    case Load => d !in j.incomplete
    case MarkInvalid => d !in j.incomplete && j.load(d).Invalid?
    case MarkEmpty(m) => d !in j.incomplete && FailsWith(j, d, m)
    case Report(m) => d !in j.incomplete && FailsWith(j, d, m)
    case Reported => d !in j.incomplete && (j.load(d).Invalid? || j.load(d).NotFound?)
    case Add(name) => d !in j.incomplete && j.load(d) == Found(name)
    case Added => d !in j.incomplete && j.load(d).Found?
    case Errored(code) => d !in j.incomplete && j.load(d) == Unexpected(code)
  }

  predicate FailsWith(j: Job, d: string, message: bool) {
    if message then j.load(d).Invalid? else j.load(d).NotFound?
  }

  /** Only a task itself marks its directory. */
  predicate Marked(pc: PC) {
    pc == MarkEmpty(true) || pc.Report? || pc.Reported?
  }

  ghost predicate IncompleteFits(j: Job, s: Shared) {
    forall d :: d in s.incomplete <==> d in j.incomplete || (d in s.pc && Marked(s.pc[d]))
  }

  predicate MetasFit(j: Job, s: Shared) {
    && (forall a, b :: 0 <= a < b < |s.metas| ==> s.metas[a].dir != s.metas[b].dir)
    && (forall a :: 0 <= a < |s.metas| ==>
         s.metas[a].dir in s.pc && s.pc[s.metas[a].dir] == Added && j.load(s.metas[a].dir) == Found(s.metas[a].name))
    && (forall d :: d in s.pc && s.pc[d] == Added ==> exists a :: 0 <= a < |s.metas| && s.metas[a].dir == d)
  }

  /** The new states, after those of phase 1. */
  predicate StatesFit(j: Job, s: Shared) {
    var n := |j.states|;
    && n <= |s.states| && s.states[..n] == j.states
    && (forall a, b :: n <= a < b < |s.states| ==> s.states[a].dir != s.states[b].dir)
    && (forall a :: n <= a < |s.states| ==>
         s.states[a].dir in s.pc && s.pc[s.states[a].dir] == Reported
           && s.states[a] == State(s.states[a].dir, NotSupported, j.load(s.states[a].dir).Invalid?))
    && (forall d :: d in s.pc && s.pc[d] == Reported ==> exists a :: n <= a < |s.states| && s.states[a].dir == d)
  }

  predicate ErrorFits(j: Job, s: Shared) {
    s.error.Some? <==> exists d :: d in s.pc && s.pc[d].Errored?
  }

  ghost predicate Inv(j: Job, s: Shared) {
    && s.pc.Keys == j.dirs
    && (forall d :: d in s.pc ==> PcFits(j, d, s.pc[d]))
    && IncompleteFits(j, s) && MetasFit(j, s) && StatesFit(j, s) && ErrorFits(j, s)
  }

  lemma InvStart(j: Job)
    ensures Inv(j, Start(j))
  {
  }

  lemma MetasStep(j: Job, s: Shared, d: string)
    requires Inv(j, s)
    ensures MetasFit(j, Step(j, s, d))
  {
    hide StatesFit, ErrorFits, IncompleteFits;
    var s' := Step(j, s, d);
    assert forall a :: 0 <= a < |s.metas| ==> s'.metas[a] == s.metas[a];
    if d in s.pc && s.pc[d].Add? {
      assert s'.metas[|s.metas|].dir == d;
    }
  }

  lemma StatesKept(j: Job, s: Shared, d: string)
    requires StatesFit(j, s) && !(d in s.pc && s.pc[d].Report?)
    ensures StatesFit(j, Step(j, s, d))
  {
    var s' := Step(j, s, d);
    assert s'.states == s.states && forall x :: x in s.pc ==>
        x in s'.pc && (s'.pc[x] == Reported <==> s.pc[x] == Reported);
  }

  lemma StatesReport(j: Job, s: Shared, d: string)
    requires StatesFit(j, s) && d in s.pc && s.pc[d].Report? && PcFits(j, d, s.pc[d])
    ensures StatesFit(j, Step(j, s, d))
  {
    var s', n, m := Step(j, s, d), |j.states|, |s.states|;
    assert forall a :: 0 <= a < m ==> s'.states[a] == s.states[a];
    assert s'.states[m].dir == d;
    assert s'.states[..n] == s.states[..n];
  }

  lemma StatesStep(j: Job, s: Shared, d: string)
    requires Inv(j, s)
    ensures StatesFit(j, Step(j, s, d))
  {
    hide Step, StatesFit, PcFits, MetasFit, ErrorFits, IncompleteFits;
    if d in s.pc && s.pc[d].Report? {
      StatesReport(j, s, d);
    } else {
      StatesKept(j, s, d);
    }
  }

  lemma PcStep(j: Job, s: Shared, d: string)
    requires Inv(j, s)
    ensures var s' := Step(j, s, d);
      s'.pc.Keys == j.dirs && forall x :: x in s'.pc ==> PcFits(j, x, s'.pc[x])
  {
    hide MetasFit, StatesFit, ErrorFits;
    var s' := Step(j, s, d);
    if d in s.pc {
      assert PcFits(j, d, s.pc[d]);
      assert PcFits(j, d, s'.pc[d]);
      assert forall x :: x in s'.pc && x != d ==> s'.pc[x] == s.pc[x];
    }
  }

  lemma IncompleteStep(j: Job, s: Shared, d: string)
    requires IncompleteFits(j, s)
    ensures IncompleteFits(j, Step(j, s, d))
  {
    hide IncompleteFits;
    var s' := Step(j, s, d);
    forall x
      ensures x in s'.incomplete <==> x in j.incomplete || (x in s'.pc && Marked(s'.pc[x]))
    {
      IncompleteAt(j, s, x);
    }
    IncompleteIntro(j, s');
  }

  lemma IncompleteAt(j: Job, s: Shared, d: string)
    requires IncompleteFits(j, s)
    ensures d in s.incomplete <==> d in j.incomplete || (d in s.pc && Marked(s.pc[d]))
  {
    hide Marked;
  }

  lemma IncompleteIntro(j: Job, s: Shared)
    requires forall d :: d in s.incomplete <==> d in j.incomplete || (d in s.pc && Marked(s.pc[d]))
    ensures IncompleteFits(j, s)
  {
    hide Marked;
  }

  lemma ErrorStep(j: Job, s: Shared, d: string)
    requires ErrorFits(j, s)
    ensures ErrorFits(j, Step(j, s, d))
  {
    var s' := Step(j, s, d);
    if d in s.pc && s'.pc[d].Errored? {
      assert s'.pc[d].Errored?;
    }
    if s.error.Some? {
      var x :| x in s.pc && s.pc[x].Errored?;
      assert s'.pc[x].Errored?;
    }
  }

  /** The invariant holds after every schedule. */
  lemma {:induction false} InvAlways(j: Job, schedule: seq<string>)
    ensures Inv(j, Run(j, schedule))
  {
    hide Inv, Step, Start;
    if schedule == [] {
      InvStart(j);
    } else {
      var n := |schedule| - 1;
      InvAlways(j, schedule[..n]);
      InvStep(j, Run(j, schedule[..n]), schedule[n]);
    }
  }

  lemma InvStep(j: Job, s: Shared, d: string)
    requires Inv(j, s)
    ensures Inv(j, Step(j, s, d))
  {
    hide Step, PcFits, MetasFit, StatesFit, IncompleteFits, ErrorFits;
    MetasStep(j, s, d);
    StatesStep(j, s, d);
    PcStep(j, s, d);
    IncompleteStep(j, s, d);
    ErrorStep(j, s, d);
  }

  // ---------------------------------------------------------- finished runs

  predicate Complete(s: Shared) {
    forall d :: d in s.pc ==> s.pc[d].Final()
  }

  /** Where the task for `d` ends, whatever the schedule. */
  function Outcome(j: Job, d: string): PC {
    if d in j.incomplete then Skipped
    else
      match j.load(d)
      case Found(_) => Added
      case NotFound => Reported
      case Invalid => Reported
      case Unexpected(code) => Errored(code)
  }

  lemma Outcomes(j: Job, schedule: seq<string>)
    requires Complete(Run(j, schedule))
    ensures Run(j, schedule).pc == map d | d in j.dirs :: Outcome(j, d)
  {
    hide Run, MetasFit, StatesFit, IncompleteFits, ErrorFits;
    InvAlways(j, schedule);
    var s := Run(j, schedule);
    forall d | d in j.dirs
      ensures s.pc[d] == Outcome(j, d)
    {
      assert PcFits(j, d, s.pc[d]);
    }
  }

  /** The packages found, as a set that no schedule is part of. */
  function ExpectedMetas(j: Job): set<Meta> {
    set d | d in j.dirs && d !in j.incomplete && j.load(d).Found? :: Meta(d, j.load(d).name)
  }

  function ExpectedStates(j: Job): set<State> {
    set d | d in j.dirs && d !in j.incomplete && (j.load(d).NotFound? || j.load(d).Invalid?) ::
      State(d, NotSupported, j.load(d).Invalid?)
  }

  predicate Lists<T(==)>(s: seq<T>, elements: set<T>) {
    && (forall a, b :: 0 <= a < b < |s| ==> s[a] != s[b])
    && (forall a :: 0 <= a < |s| ==> s[a] in elements)
    && (forall x :: x in elements ==> x in s)
  }

  lemma {:induction false} ListsSame<T>(s: seq<T>, t: seq<T>, elements: set<T>)
    requires Lists(s, elements) && Lists(t, elements)
    ensures multiset(s) == multiset(t)
  {
    ListsMultiset(s, elements);
    ListsMultiset(t, elements);
  }

  lemma {:induction false} ListsMultiset<T>(s: seq<T>, elements: set<T>)
    requires Lists(s, elements)
    ensures multiset(s) == multiset(elements)
  {
    if s == [] {
      assert elements == {};
    } else {
      var n := |s| - 1;
      var rest := elements - {s[n]};
      assert s == s[..n] + [s[n]];
      forall x | x in rest
        ensures x in s[..n]
      {
        assert x in s;
      }
      ListsMultiset(s[..n], rest);
      assert elements == rest + {s[n]};
    }
  }

  /** Every complete schedule finds the same packages and the same failed states, each once,
      and fails exactly when loading some directory fails unexpectedly. */
  lemma EverySchedule(j: Job, schedule: seq<string>)
    requires Complete(Run(j, schedule))
    ensures var s := Run(j, schedule);
      && Lists(s.metas, ExpectedMetas(j))
      && |j.states| <= |s.states| && s.states[..|j.states|] == j.states
           && Lists(s.states[|j.states|..], ExpectedStates(j))
      && (s.error.Some? <==> exists d :: d in j.dirs && d !in j.incomplete && j.load(d).Unexpected?)
  {
    hide Run;
    InvAlways(j, schedule);
    Outcomes(j, schedule);
    var s := Run(j, schedule);
    FinalMetas(j, s);
    FinalStates(j, s);
    FinalError(j, s);
  }

  lemma FinalMetas(j: Job, s: Shared)
    requires MetasFit(j, s) && s.pc == map d | d in j.dirs :: Outcome(j, d)
    ensures Lists(s.metas, ExpectedMetas(j))
  {
    forall a | 0 <= a < |s.metas|
      ensures s.metas[a] in ExpectedMetas(j)
    {
      assert s.pc[s.metas[a].dir] == Added;
    }
    forall x | x in ExpectedMetas(j)
      ensures x in s.metas
    {
      assert s.pc[x.dir] == Added;
      var a :| 0 <= a < |s.metas| && s.metas[a].dir == x.dir;
      assert s.metas[a] == x;
    }
  }

  lemma StatesTwice(j: Job, s: Shared)
    requires StatesFit(j, s)
    ensures |j.states| <= |s.states| && forall a, b :: |j.states| <= a < b < |s.states| ==> s.states[a] != s.states[b]
  {
  }

  lemma StateExpected(j: Job, s: Shared, a: nat)
    requires StatesFit(j, s) && s.pc == map d | d in j.dirs :: Outcome(j, d)
    requires |j.states| <= a < |s.states|
    ensures s.states[a] in ExpectedStates(j)
  {
    assert s.pc[s.states[a].dir] == Reported;
  }

  lemma StateReported(j: Job, s: Shared, x: State) returns (a: nat)
    requires StatesFit(j, s) && s.pc == map d | d in j.dirs :: Outcome(j, d)
    requires x in ExpectedStates(j)
    ensures |j.states| <= a < |s.states| && s.states[a] == x
  {
    assert s.pc[x.dir] == Reported;
    a :| |j.states| <= a < |s.states| && s.states[a].dir == x.dir;
  }

  lemma FinalStates(j: Job, s: Shared)
    requires StatesFit(j, s) && s.pc == map d | d in j.dirs :: Outcome(j, d)
    ensures Lists(s.states[|j.states|..], ExpectedStates(j))
  {
    hide StatesFit, ExpectedStates, Outcome;
    StatesTwice(j, s);
    var n := |j.states|;
    var t := s.states[n..];
    forall a | 0 <= a < |t|
      ensures t[a] in ExpectedStates(j)
    {
      StateExpected(j, s, n + a);
    }
    forall x | x in ExpectedStates(j)
      ensures x in t
    {
      var a := StateReported(j, s, x);
      assert t[a - n] == x;
    }
  }

  lemma FinalError(j: Job, s: Shared)
    requires ErrorFits(j, s) && s.pc == map d | d in j.dirs :: Outcome(j, d)
    ensures s.error.Some? <==> exists d :: d in j.dirs && d !in j.incomplete && j.load(d).Unexpected?
  {
    if d :| d in j.dirs && d !in j.incomplete && j.load(d).Unexpected? {
      assert s.pc[d].Errored?;
    }
  }

  /** The results of two complete schedules differ at most in order. */
  lemma ScheduleIndependent(j: Job, one: seq<string>, two: seq<string>)
    requires Complete(Run(j, one)) && Complete(Run(j, two))
    ensures multiset(Run(j, one).metas) == multiset(Run(j, two).metas)
    ensures multiset(Run(j, one).states) == multiset(Run(j, two).states)
    ensures Run(j, one).error.Some? == Run(j, two).error.Some?
  {
    hide Run, Complete, Lists, ExpectedMetas, ExpectedStates;
    EverySchedule(j, one);
    EverySchedule(j, two);
    var s, t, n := Run(j, one), Run(j, two), |j.states|;
    ListsSame(s.metas, t.metas, ExpectedMetas(j));
    ListsSame(s.states[n..], t.states[n..], ExpectedStates(j));
    StatesSplit(j, one);
    StatesSplit(j, two);
  }

  lemma StatesSplit(j: Job, schedule: seq<string>)
    ensures var s := Run(j, schedule);
      |j.states| <= |s.states| && s.states == j.states + s.states[|j.states|..]
  {
    hide Run, MetasFit, IncompleteFits, ErrorFits, PcFits;
    InvAlways(j, schedule);
  }

  // ------------------------------------------------------------ termination

  /** Steps a task still needs at most. */
  function Left(pc: PC): nat {
    match pc
    case Ready => 5
    case Load => 4
    case MarkInvalid => 3
    case MarkEmpty(_) => 2
    case Add(_) => 1
    case Report(_) => 1
    case _ => 0
  }

  function Turns(schedule: seq<string>, d: string): nat {
    if schedule == [] then 0
    else Turns(schedule[..|schedule| - 1], d) + if schedule[|schedule| - 1] == d then 1 else 0
  }

  lemma {:induction false} TurnsSpent(j: Job, schedule: seq<string>, d: string)
    requires d in j.dirs
    ensures d in Run(j, schedule).pc
    ensures Left(Run(j, schedule).pc[d]) + Turns(schedule, d) <= 5 || Run(j, schedule).pc[d].Final()
  {
    hide Start;
    if schedule == [] {
      StartReady(j, d);
    } else {
      TurnsSpent(j, schedule[..|schedule| - 1], d);
    }
  }

  lemma StartReady(j: Job, d: string)
    requires d in j.dirs
    ensures d in Start(j).pc && Start(j).pc[d] == Ready
  {
  }

  /** Five turns finish any task, whatever the others do. */
  lemma EnoughTurns(j: Job, schedule: seq<string>)
    requires forall d :: d in j.dirs ==> Turns(schedule, d) >= 5
    ensures Complete(Run(j, schedule))
  {
    hide Run, Turns, MetasFit, StatesFit, IncompleteFits, ErrorFits, PcFits;
    InvAlways(j, schedule);
    forall d | d in j.dirs
      ensures Run(j, schedule).pc[d].Final()
    {
      TurnsSpent(j, schedule, d);
    }
  }

  // ------------------------------------------------- every directory, once

  function CountMetas(metas: seq<Meta>, d: string): nat {
    if metas == [] then 0
    else CountMetas(metas[..|metas| - 1], d) + if metas[|metas| - 1].dir == d then 1 else 0
  }

  function CountStates(states: seq<State>, d: string): nat {
    if states == [] then 0
    else CountStates(states[..|states| - 1], d) + if states[|states| - 1].dir == d then 1 else 0
  }

  lemma {:induction false} MetasOnce(metas: seq<Meta>, d: string)
    requires forall a, b :: 0 <= a < b < |metas| ==> metas[a].dir != metas[b].dir
    ensures CountMetas(metas, d) == if exists a :: 0 <= a < |metas| && metas[a].dir == d then 1 else 0
  {
    if metas != [] {
      var n := |metas| - 1;
      MetasOnce(metas[..n], d);
      assert forall a :: 0 <= a < n ==> metas[..n][a] == metas[a];
      assert (exists a :: 0 <= a < |metas| && metas[a].dir == d) <==>
          metas[n].dir == d || exists a :: 0 <= a < n && metas[..n][a].dir == d;
    }
  }

  lemma {:induction false} StatesOnce(states: seq<State>, d: string)
    requires forall a, b :: 0 <= a < b < |states| ==> states[a].dir != states[b].dir
    ensures CountStates(states, d) == if exists a :: 0 <= a < |states| && states[a].dir == d then 1 else 0
  {
    if states != [] {
      var n := |states| - 1;
      StatesOnce(states[..n], d);
      assert forall a :: 0 <= a < n ==> states[..n][a] == states[a];
      assert (exists a :: 0 <= a < |states| && states[a].dir == d) <==>
          states[n].dir == d || exists a :: 0 <= a < n && states[..n][a].dir == d;
    }
  }

  lemma {:induction false} CountStatesJoin(a: seq<State>, b: seq<State>, d: string)
    ensures CountStates(a + b, d) == CountStates(a, d) + CountStates(b, d)
  {
    if b == [] {
      assert a + b == a;
    } else {
      var n := |b| - 1;
      assert (a + b)[..|a + b| - 1] == a + b[..n];
      CountStatesJoin(a, b[..n], d);
    }
  }

  /** The job that phase 1 hands over. */
  ghost predicate FromPhase1(m: Module, entries: seq<Entry>, j: Job) {
    j.dirs == Started(m, entries) && j.incomplete == Bad(m, entries) && StatesFor(m, j.states, j.incomplete)
  }

  lemma Phase1States(m: Module, entries: seq<Entry>, j: Job, d: string)
    requires FromPhase1(m, entries, j)
    ensures CountStates(j.states, d) == if d in j.incomplete then 1 else 0
  {
    hide Started, Bad;
    StatesOnce(j.states, d);
  }

  lemma TaskMetas(j: Job, metas: seq<Meta>, d: string)
    requires Lists(metas, ExpectedMetas(j))
    ensures CountMetas(metas, d) == if d in j.dirs && d !in j.incomplete && j.load(d).Found? then 1 else 0
  {
    assert forall a :: 0 <= a < |metas| ==> metas[a] == Meta(metas[a].dir, j.load(metas[a].dir).name);
    MetasOnce(metas, d);
    if d in j.dirs && d !in j.incomplete && j.load(d).Found? {
      assert Meta(d, j.load(d).name) in metas;
    }
  }

  lemma TaskStates(j: Job, states: seq<State>, d: string)
    requires Lists(states, ExpectedStates(j))
    ensures CountStates(states, d) == if d in j.dirs && d !in j.incomplete
      && (j.load(d).NotFound? || j.load(d).Invalid?) then 1 else 0
  {
    assert forall a :: 0 <= a < |states| ==>
        states[a] == State(states[a].dir, NotSupported, j.load(states[a].dir).Invalid?);
    StatesOnce(states, d);
    if d in j.dirs && d !in j.incomplete && (j.load(d).NotFound? || j.load(d).Invalid?) {
      assert State(d, NotSupported, j.load(d).Invalid?) in states;
    }
  }

  /** Without an unexpected error every eligible directory is accounted for exactly once, as a
      package or as a failed state, and no other directory is. */
  lemma AccountedOnce(m: Module, entries: seq<Entry>, j: Job, schedule: seq<string>, d: string)
    requires FromPhase1(m, entries, j) && Complete(Run(j, schedule)) && Run(j, schedule).error.None?
    ensures var s := Run(j, schedule);
      CountMetas(s.metas, d) + CountStates(s.states, d) == if d in Eligible(m, entries) then 1 else 0
  {
    hide Run, Complete, Lists, ExpectedMetas, ExpectedStates, Eligible, Started, Bad, StatesFor;
    var s, n := Run(j, schedule), |j.states|;
    EverySchedule(j, schedule);
    StatesSplit(j, schedule);
    Phase1Complete(m, entries, d);
    Phase1States(m, entries, j, d);
    TaskMetas(j, s.metas, d);
    TaskStates(j, s.states[n..], d);
    CountStatesJoin(j.states, s.states[n..], d);
  }
}
