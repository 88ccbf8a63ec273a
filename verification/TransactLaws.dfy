/** When a transaction is tried again, and with what result, said of the errors that the
    database and the function itself report (internal/database/database.go). */
module TransactLaws {
  import opened Basics
  import opened Transact

  /** One of the two drivers reports that the transaction could not be serialized. */
  predicate CarriesCode(e: Error) {
    e.pq == Code("40001") || e.pgx == Code("40001")
  }

  /** The first thing that goes wrong in an attempt: connecting, beginning, the function itself, or
      committing. */
  function FirstError(a: Attempt): Option<Error> {
    match a
    case Attempt(Some(e), _, _, _) => Some(e)
    case Attempt(None, Some(e), _, _) => Some(e)
    case Attempt(None, None, Err(e), _) => Some(e)
    case Attempt(None, None, Nil, Some(e)) => Some(e)
    case _ => None
  }

  /** The function panics. */
  predicate Panics(a: Attempt) {
    a.conn.None? && a.begin.None? && a.body.Panic?
  }

  lemma ContainsTail(s: string, t: string, u: string)
    requires Contains(t, u)
    ensures Contains(s + t, u)
  {
    var i :| 0 <= i <= |t| && u <= t[i..];
    assert (s + t)[|s| + i..] == t[i..];
  }

  lemma ContainsItself(t: string)
    ensures Contains(t, t)
  {
    assert t <= t[0..];
  }

  /** The result of an attempt: the first error, possibly with a longer text and with its codes;
      else the panic; else nothing. */
  lemma AttemptResult(a: Attempt)
    ensures var r := ResultOf(false, a);
      && (r.Err? <==> FirstError(a).Some?) && (r.Panic? <==> Panics(a)) && (Panics(a) ==> r == a.body)
      && (r.Err? ==>
           var e := FirstError(a).value;
           r.error.pq == e.pq && r.error.pgx == e.pgx && Contains(r.error.text, e.text))
  {
    var r := ResultOf(false, a);
    if FirstError(a).Some? {
      var e := FirstError(a).value;
      ContainsItself(e.text);
      if r.error.text != e.text {
        var prefix := r.error.text[..|r.error.text| - |e.text|];
        ContainsTail(prefix, e.text, e.text);
        assert r.error.text == prefix + e.text;
      }
    }
  }

  /** An attempt is one to try again exactly if the first error carries the code. */
  lemma FailsExactly(a: Attempt)
    ensures SerializationFails(false, a) <==> FirstError(a).Some? && CarriesCode(FirstError(a).value)
  {
    hide ResultOf, Contains;
    AttemptResult(a);
  }

  /** A nested transaction is refused, whatever else would happen, and not tried again. */
  lemma NestedRefused(script: nat -> Attempt)
    ensures Overall(true, script).Err? && !SerializationFails(true, script(0))
  {
    LeadingIs(true, script, MAX_RETRIES + 1, 0);
  }

  predicate TriedAgain(a: Attempt) {
    FirstError(a).Some? && CarriesCode(FirstError(a).value)
  }

  /** Retrying ends well exactly if some attempt among the first eleven works and all before it
      are ones to try again. */
  lemma SucceedsExactly(script: nat -> Attempt)
    ensures Overall(false, script) == Nil <==>
      exists k :: 0 <= k <= 10 && WorksAt(script, k)
  {
    hide ResultOf, Leading, SerializationFails, Contains, FirstError;
    var k := Leading(false, script, MAX_RETRIES + 1);
    forall j: nat
      ensures SerializationFails(false, script(j)) <==> TriedAgain(script(j))
      ensures ResultOf(false, script(j)) == Nil <==> FirstError(script(j)).None? && !Panics(script(j))
    {
      FailsExactly(script(j));
      AttemptResult(script(j));
    }
    if Overall(false, script) == Nil {
      assert WorksAt(script, k);
    }
    forall i | 0 <= i <= 10 && WorksAt(script, i)
      ensures i == k
    {
      LeadingIs(false, script, MAX_RETRIES + 1, i);
    }
  }

  /** Attempt `k` works, and all before it are ones to try again. */
  predicate WorksAt(script: nat -> Attempt, k: nat) {
    && (forall j :: 0 <= j < k ==> TriedAgain(script(j)))
    && FirstError(script(k)).None? && !Panics(script(k))
  }

  /** Attempt `k` is the first that is not one to try again. */
  predicate StopsAt(script: nat -> Attempt, k: nat) {
    !TriedAgain(script(k)) && forall j :: 0 <= j < k ==> TriedAgain(script(j))
  }

  /** Otherwise the first attempt that is not one to try again decides: its panic, or its error. If
      its text shows the code, the error is replaced by one that says so. Eleven are enough. */
  lemma FailsWith(script: nat -> Attempt, k: nat)
    requires k <= 10 && StopsAt(script, k)
    ensures var r := Overall(false, script);
      && (Panics(script(k)) ==> r == script(k).body)
      && (FirstError(script(k)).Some? ==>
           r.Err? && Contains(r.error.text, FirstError(script(k)).value.text) && !CarriesCode(r.error))
  {
    hide ResultOf, Leading, SerializationFails, FirstError, Contains;
    forall j: nat
      ensures SerializationFails(false, script(j)) <==> TriedAgain(script(j))
    {
      FailsExactly(script(j));
    }
    LeadingIs(false, script, MAX_RETRIES + 1, k);
    AttemptResult(script(k));
    var r := ResultOf(false, script(k));
    if r.Err? && Contains(r.error.text, SERIALIZATION_FAILURE_CODE) {
      UnrecognizedKeeps(r.error, FirstError(script(k)).value.text);
    }
  }

  lemma UnrecognizedKeeps(e: Error, text: string)
    requires Contains(e.text, text)
    ensures Contains(Unrecognized(e).text, text) && !CarriesCode(Unrecognized(e))
  {
    var prefix := "error text has \"40001\" but not recognized as serialization failure: ";
    ContainsTail(prefix, e.text, text);
  }

  lemma NeverWorks(script: nat -> Attempt)
    requires forall j :: 0 <= j <= 10 ==> TriedAgain(script(j))
    ensures Overall(false, script).Err? && !CarriesCode(Overall(false, script).error)
  {
    hide ResultOf, FirstError;
    forall j | 0 <= j <= 10
      ensures SerializationFails(false, script(j))
    {
      FailsExactly(script(j));
    }
    LeadingIs(false, script, MAX_RETRIES + 1, MAX_RETRIES + 1);
  }
}
