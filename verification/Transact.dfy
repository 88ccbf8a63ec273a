/** Transactions and their retries (internal/database/database.go). */
module Transact {
  import opened Basics

  // ------------------------------------------------------------------ errors

  datatype Code = NoCode | Code(code: string)

  /** An error, with the codes that the two drivers' error types in its chain carry. */
  datatype Error = Error(text: string, pq: Code, pgx: Code)

  const SERIALIZATION_FAILURE_CODE := "40001"

  /** Wrapping keeps the chain and extends the text. */
  function Wrap(prefix: string, e: Error): Error {
    e.(text := prefix + ": " + e.text)
  }

  function Plain(text: string): Error {
    Error(text, NoCode, NoCode)
  }

  predicate IsSerializationFailure(e: Error) {
    e.pq == Code(SERIALIZATION_FAILURE_CODE) || e.pgx == Code(SERIALIZATION_FAILURE_CODE)
  }

  datatype Result = Nil | Err(error: Error) | Panic(value: int)

  // ---------------------------------------------------------------- outcomes

  /** What the outside does during one attempt. */
  datatype Attempt = Attempt(conn: Option<Error>, begin: Option<Error>, body: Result, commit: Option<Error>)

  const ALREADY_IN_TRANSACTION := Plain("a DB Transact function was called on a DB already in a transaction")

  datatype Event = Open | Close | Begin | Commit | FailedCommit | Rollback | Sleep(ms: nat)

  // ----------------------------------------------------- well-formed histories

  datatype Phase = Idle | Connected | Running | Ended | Broken

  /** Connections and transactions nest: one transaction at a time, ended exactly once, on an
      open connection that is closed afterwards. */
  function After(p: Phase, e: Event): Phase {
    match (p, e)
    case (Idle, Open) => Connected
    case (Idle, Sleep(_)) => Idle
    case (Connected, Begin) => Running
    case (Connected, Close) => Idle
    case (Running, Commit) => Ended
    case (Running, FailedCommit) => Ended
    case (Running, Rollback) => Ended
    case (Ended, Close) => Idle
    case _ => Broken
  }

  function PhaseOf(log: seq<Event>): Phase {
    if log == [] then Idle else After(PhaseOf(log[..|log| - 1]), log[|log| - 1])
  }

  function Count(log: seq<Event>, e: Event): nat {
    if log == [] then 0 else Count(log[..|log| - 1], e) + if log[|log| - 1] == e then 1 else 0
  }

  function Slept(log: seq<Event>): nat {
    if log == [] then 0 else Slept(log[..|log| - 1]) + if log[|log| - 1].Sleep? then log[|log| - 1].ms else 0
  }

  /** How the last transaction that was begun ended. */
  function LastEnd(log: seq<Event>): Event {
    if log == [] then Open
    else
      var e := log[|log| - 1];
      if e.Commit? || e.FailedCommit? || e.Rollback? || e.Begin? then e else LastEnd(log[..|log| - 1])
  }

  /** One more event. */
  lemma More(log: seq<Event>, e: Event)
    ensures PhaseOf(log + [e]) == After(PhaseOf(log), e)
    ensures forall x :: Count(log + [e], x) == Count(log, x) + if e == x then 1 else 0
    ensures Slept(log + [e]) == Slept(log) + if e.Sleep? then e.ms else 0
    ensures LastEnd(log + [e]) == if e.Commit? || e.FailedCommit? || e.Rollback? || e.Begin? then e else LastEnd(log)
  {
    assert (log + [e])[..|log|] == log;
  }

  lemma Nothing()
    ensures PhaseOf([]) == Idle && Slept([]) == 0 && forall x :: Count([], x) == 0
  {
  }

  lemma {:induction false} PhaseJoin(a: seq<Event>, b: seq<Event>)
    requires PhaseOf(a) == Idle
    ensures PhaseOf(a + b) == PhaseOf(b)
  {
    if b == [] {
      assert a + b == a;
    } else {
      assert (a + b)[..|a + b| - 1] == a + b[..|b| - 1];
      PhaseJoin(a, b[..|b| - 1]);
    }
  }

  lemma {:induction false} CountJoin(a: seq<Event>, b: seq<Event>, e: Event)
    ensures Count(a + b, e) == Count(a, e) + Count(b, e)
  {
    if b == [] {
      assert a + b == a;
    } else {
      assert (a + b)[..|a + b| - 1] == a + b[..|b| - 1];
      CountJoin(a, b[..|b| - 1], e);
    }
  }

  lemma {:induction false} SleptJoin(a: seq<Event>, b: seq<Event>)
    ensures Slept(a + b) == Slept(a) + Slept(b)
  {
    if b == [] {
      assert a + b == a;
    } else {
      assert (a + b)[..|a + b| - 1] == a + b[..|b| - 1];
      SleptJoin(a, b[..|b| - 1]);
    }
  }

  /** In a finished history each transaction that was begun has ended once, and each
      connection was closed. */
  lemma {:induction false} EndedOnce(log: seq<Event>)
    requires PhaseOf(log) != Broken
    ensures Count(log, Begin) == Count(log, Commit) + Count(log, FailedCommit) + Count(log, Rollback) + if PhaseOf(log)
      == Running then 1 else 0
    ensures Count(log, Open) == Count(log, Close) + if PhaseOf(log) == Idle then 0 else 1
  {
    if log != [] {
      var n := |log| - 1;
      assert PhaseOf(log[..n]) != Broken;
      EndedOnce(log[..n]);
    }
  }

  lemma {:induction false} LastEndJoin(a: seq<Event>, b: seq<Event>)
    ensures LastEnd(b) != Open ==> LastEnd(a + b) == LastEnd(b)
  {
    if b != [] {
      assert (a + b)[..|a + b| - 1] == a + b[..|b| - 1];
      LastEndJoin(a, b[..|b| - 1]);
    }
  }

  // ----------------------------------------------------------------- retries

  const MAX_RETRIES := 10

  predicate SerializationFails(inTransaction: bool, a: Attempt) {
    ResultOf(inTransaction, a).Err? && IsSerializationFailure(ResultOf(inTransaction, a).error)
  }

  /** How many of the first `n` attempts fail to serialize before one does not. */
  function Leading(inTransaction: bool, script: nat -> Attempt, n: nat): (k: nat)
    ensures k <= n && (forall j :: 0 <= j < k ==> SerializationFails(inTransaction, script(j)))
    ensures k < n ==> !SerializationFails(inTransaction, script(k))
  {
    if n == 0 then 0
    else
      var k := Leading(inTransaction, script, n - 1);
      if k == n - 1 && SerializationFails(inTransaction, script(k)) then n else k
  }

  lemma {:induction false} LeadingIs(inTransaction: bool, script: nat -> Attempt, n: nat, k: nat)
    requires k <= n && (forall j :: 0 <= j < k ==> SerializationFails(inTransaction, script(j)))
    requires k < n ==> !SerializationFails(inTransaction, script(k))
    ensures Leading(inTransaction, script, n) == k
  {
    hide SerializationFails;
    if n > 0 {
      LeadingIs(inTransaction, script, n - 1, if k == n then n - 1 else k);
    }
  }

  function Pow2(n: nat): (p: nat)
    ensures p >= 1
  {
    if n == 0 then 1 else 2 * Pow2(n - 1)
  }

  const TOO_MANY_TRIES := Plain("reached max number of tries due to serialization failure (10)")

  function Unrecognized(e: Error): Error {
    Plain("error text has \"40001\" but not recognized as serialization failure: " + e.text)
  }

  /** The result of all attempts: that of the first which does not fail to serialize. */
  function Overall(inTransaction: bool, script: nat -> Attempt): Result {
    var k := Leading(inTransaction, script, MAX_RETRIES + 1);
    if k > MAX_RETRIES then Err(TOO_MANY_TRIES)
    else
      var r := ResultOf(inTransaction, script(k));
      if r.Err? && Contains(r.error.text, SERIALIZATION_FAILURE_CODE) then Err(Unrecognized(r.error)) else r
  }

  /** A history so far: `k` attempts failed, none committed. */
  predicate Trying(run: seq<Event>, k: nat) {
    PhaseOf(run) == Idle && Slept(run) == 125 * (Pow2(k) - 1) && Count(run, Commit) == 0 && Count(run, Begin) <= k
  }

  lemma TryAgain(run: seq<Event>, once: seq<Event>, k: nat)
    requires Trying(run, k) && PhaseOf(once) == Idle && Slept(once) == 0 && Count(once, Begin) <= 1
    requires Count(once, Commit) == 0
    ensures Trying(run + once + [Sleep(125 * Pow2(k))], k + 1) && Pow2(k + 1) == 2 * Pow2(k)
  {
    hide PhaseOf, Slept, Count;
    PhaseJoin(run, once);
    SleptJoin(run, once);
    CountJoin(run, once, Begin);
    CountJoin(run, once, Commit);
    More(run + once, Sleep(125 * Pow2(k)));
  }

  /** A whole history: every transaction ended, at most `tries` begun, the waiting time of `k`
      failures, and a commit exactly on success, by the last transaction begun. */
  predicate Finished(run: seq<Event>, k: nat, tries: nat, success: bool) {
    && PhaseOf(run) == Idle && Slept(run) == 125 * (Pow2(k) - 1) && Count(run, Begin) <= tries
    && Count(run, Commit) == (if success then 1 else 0) && (success ==> LastEnd(run) == Commit)
  }

  lemma TryEnds(run: seq<Event>, once: seq<Event>, k: nat, success: bool)
    requires Trying(run, k) && PhaseOf(once) == Idle && Slept(once) == 0 && Count(once, Begin) <= 1
    requires Count(once, Commit) == (if success then 1 else 0) && (success ==> LastEnd(once) == Commit)
    ensures Finished(run + once, k, k + 1, success)
  {
    hide PhaseOf, Slept, Count, LastEnd, Pow2;
    PhaseJoin(run, once);
    SleptJoin(run, once);
    CountJoin(run, once, Begin);
    CountJoin(run, once, Commit);
    LastEndJoin(run, once);
  }

  lemma GivesUp(run: seq<Event>, k: nat)
    requires Trying(run, k)
    ensures Finished(run, k, k, false)
  {
    hide PhaseOf, Slept, Count, LastEnd, Pow2;
  }

  lemma FailsIs(inTransaction: bool, a: Attempt)
    ensures var r := ResultOf(inTransaction, a);
      SerializationFails(inTransaction, a) <==> r.Err? && IsSerializationFailure(r.error)
  {
    hide ResultOf, IsSerializationFailure;
  }

  lemma OverallIs(inTransaction: bool, script: nat -> Attempt)
    ensures var k, r := Leading(inTransaction, script, MAX_RETRIES + 1), Overall(inTransaction, script);
      if k > MAX_RETRIES then r == Err(TOO_MANY_TRIES)
      else
        var last := ResultOf(inTransaction, script(k));
        r == if last.Err? && Contains(last.error.text, SERIALIZATION_FAILURE_CODE) then Err(Unrecognized(last.error))
          else last
  {
    hide Leading, ResultOf, Contains;
  }

  lemma NotTried()
    ensures Trying([], 0) && Pow2(0) == 1
  {
  }

  datatype Isolation =
    | Default
    | ReadUncommitted
    | ReadCommitted
    | WriteCommitted
    | RepeatableRead
    | Snapshot
    | Serializable
    | Linearizable

  predicate IsRetryable(iso: Isolation) {
    iso.RepeatableRead? || iso.Serializable?
  }

  // ------------------------------------------------------------ one attempt

  class DB {
    const inTransaction: bool
    var log: seq<Event>
    var maxRetries: nat

    constructor (inTransaction: bool)
      ensures this.inTransaction == inTransaction && log == [] && maxRetries == 0
    {
      this.inTransaction, log, maxRetries := inTransaction, [], 0;
    }

    /** `transact`. */
    method Once(a: Attempt) returns (r: Result, ghost run: seq<Event>)
      modifies this`log
      ensures log == old(log) + run && r == ResultOf(inTransaction, a)
      ensures PhaseOf(run) == Idle && Slept(run) == 0 && Count(run, Begin) <= 1
      ensures r.Nil? ==> Count(run, Commit) == 1 && LastEnd(run) == Commit
      ensures !r.Nil? ==> Count(run, Commit) == 0
      ensures r.Panic? ==> Count(run, Rollback) == 1
    {
      hide PhaseOf, Count, Slept, LastEnd;
      run := [];
      Nothing();
      if inTransaction {
        return Err(ALREADY_IN_TRANSACTION), run;
      }
      if a.conn.Some? {
        return Err(a.conn.value), run;
      }
      run := Note(run, Open);
      if a.begin.Some? {
        r := Err(Wrap("conn.BeginTx()", a.begin.value));
      } else {
        run := Note(run, Begin);
        r := if a.body.Err? then Err(Wrap("txFunc(tx)", a.body.error)) else a.body;
        if r.Panic? || r.Err? {
          run := Note(run, Rollback);
        } else if a.commit.Some? {
          run := Note(run, FailedCommit);
          r := Err(Wrap("tx.Commit()", a.commit.value));
        } else {
          run := Note(run, Commit);
        }
      }
      run := Note(run, Close);
    }

    /** `transactWithRetry`. */
    method WithRetry(script: nat -> Attempt) returns (r: Result, ghost run: seq<Event>)
      modifies this
      ensures log == old(log) + run && r == Overall(inTransaction, script)
      ensures var k := Leading(inTransaction, script, MAX_RETRIES + 1);
        && Finished(run, k, if k > MAX_RETRIES then k else k + 1, r.Nil?)
        && maxRetries == if k > old(maxRetries) + 1 then k - 1 else old(maxRetries)
    {
      hide *;
      run := [];
      OverallIs(inTransaction, script);
      NotTried();
      var sleepDur := 125;
      for i := 0 to MAX_RETRIES + 1
        invariant log == old(log) + run && Trying(run, i) && sleepDur == 125 * Pow2(i)
        invariant forall j :: 0 <= j < i ==> SerializationFails(inTransaction, script(j))
        invariant maxRetries == if i > old(maxRetries) + 1 then i - 1 else old(maxRetries)
      {
        ghost var once;
        r, once := Once(script(i));
        FailsIs(inTransaction, script(i));
        if r.Err? && IsSerializationFailure(r.error) {
          if i > maxRetries {
            maxRetries := i;
          }
          TryAgain(run, once, i);
          run := run + once + [Sleep(sleepDur)];
          log := log + [Sleep(sleepDur)];
          sleepDur := sleepDur * 2;
        } else {
          LeadingIs(inTransaction, script, MAX_RETRIES + 1, i);
          TryEnds(run, once, i, r.Nil?);
          run := run + once;
          if r.Err? && Contains(r.error.text, SERIALIZATION_FAILURE_CODE) {
            return Err(Unrecognized(r.error)), run;
          }
          return;
        }
      }
      LeadingIs(inTransaction, script, MAX_RETRIES + 1, MAX_RETRIES + 1);
      GivesUp(run, MAX_RETRIES + 1);
      r := Err(TOO_MANY_TRIES);
    }

    /** `Transact`: isolation levels that can fail to serialize are retried. */
    method Run(iso: Isolation, script: nat -> Attempt) returns (r: Result, ghost run: seq<Event>)
      modifies this
      ensures log == old(log) + run && PhaseOf(run) == Idle
      ensures Count(run, Commit) == (if r.Nil? then 1 else 0) && (r.Nil? ==> LastEnd(run) == Commit)
      ensures iso == RepeatableRead || iso == Serializable ==>
        r == Overall(inTransaction, script) && Count(run, Begin) <= MAX_RETRIES + 1
      ensures iso != RepeatableRead && iso != Serializable ==>
        && r == ResultOf(inTransaction, script(0)) && Count(run, Begin) <= 1
        && Slept(run) == 0 && maxRetries == old(maxRetries)
    {
      hide PhaseOf, Count, Slept, LastEnd, Leading, Overall, ResultOf, Pow2;
      if IsRetryable(iso) {
        r, run := WithRetry(script);
      } else {
        r, run := Once(script(0));
      }
    }

    /** Appends an event to the history. */
    method Note(ghost run: seq<Event>, e: Event) returns (ghost run': seq<Event>)
      modifies this`log
      ensures log == old(log) + [e] && run' == run + [e]
      ensures PhaseOf(run') == After(PhaseOf(run), e)
      ensures Count(run', Begin) == Count(run, Begin) + if e.Begin? then 1 else 0
      ensures Count(run', Commit) == Count(run, Commit) + if e.Commit? then 1 else 0
      ensures Count(run', Rollback) == Count(run, Rollback) + if e.Rollback? then 1 else 0
      ensures Slept(run') == Slept(run) + if e.Sleep? then e.ms else 0
      ensures LastEnd(run') == if e.Commit? || e.FailedCommit? || e.Rollback? || e.Begin? then e else LastEnd(run)
    {
      More(run, e);
      log, run' := log + [e], run + [e];
    }
  }

  /** The result of one attempt. */
  function ResultOf(inTransaction: bool, a: Attempt): Result {
    if inTransaction then Err(ALREADY_IN_TRANSACTION)
    else if a.conn.Some? then Err(a.conn.value)
    else if a.begin.Some? then Err(Wrap("conn.BeginTx()", a.begin.value))
    else if a.body.Err? then Err(Wrap("txFunc(tx)", a.body.error))
    else if a.body.Nil? && a.commit.Some? then Err(Wrap("tx.Commit()", a.commit.value))
    else a.body
  }
}
