/**
 BaseAgent._call_llm and _call_llm_structured: three attempts under the shared breaker, each of
 which the methods prove to end and to be recorded as the account of attempts says.
 */
module LlmCalls {
  import opened CircuitBreaking

  class Agent {
    const breaker: CircuitBreaker
    var errors: nat

    constructor (breaker: CircuitBreaker)
      ensures this.breaker == breaker && errors == 0
    {
      this.breaker := breaker;
      errors := 0;
    }

    /** Other callers' events, then this call's reading of is_open. */
    method FailFast(a: Attempt) returns (open: bool)
      requires breaker.Valid()
      modifies breaker
      ensures breaker.Valid() && breaker.history == old(breaker.history) + a.before + [Check(a.at)]
      ensures open <==> !Step(breaker.config, Run(breaker.config, old(breaker.history) + a.before), Check(a.at)).1
    {
      breaker.Interfere(a.before);
      open := breaker.IsOpen(a.at);
    }

    method RecordReply(reply: Reply, at: int, structured: bool) returns (r: Result)
      requires breaker.Valid()
      modifies this, breaker
      ensures breaker.Valid() && breaker.history == old(breaker.history) + Recorded(reply, structured, at)
      ensures r == match reply case Ok => Answered case Transient => TransientError case _ => PermanentError
      ensures errors == old(errors) + if r == PermanentError && !structured then 1 else 0
    {
      match reply {
        case Ok =>
          breaker.RecordSuccess(at);
          r := Answered;
        case Malformed =>
          if !structured {
            breaker.RecordSuccess(at);
            errors := errors + 1;
          }
          r := PermanentError;
        case Transient =>
          breaker.RecordFailure(at);
          r := TransientError;
        case Permanent =>
          if !structured { errors := errors + 1; }
          r := PermanentError;
      }
    }

    /** The provider's reply, recorded with the breaker; other callers' events come while it is awaited. */
    method CallProvider(a: Attempt, structured: bool) returns (r: Result)
      requires breaker.Valid()
      modifies this, breaker
      ensures breaker.Valid()
      ensures breaker.history == old(breaker.history) + (a.during + Recorded(a.reply, structured, a.doneAt))
      ensures r == match a.reply case Ok => Answered case Transient => TransientError case _ => PermanentError
      ensures errors == old(errors) + if r == PermanentError && !structured then 1 else 0
    {
      breaker.Interfere(a.during);
      r := RecordReply(a.reply, a.doneAt, structured);
    }

    /**
     One attempt of _call_llm (structured = false) or _call_llm_structured (structured = true). It
     fails fast on an open breaker without recording anything.
     */
    method TryOnce(a: Attempt, structured: bool, useCache: bool) returns (r: Result)
      requires breaker.Valid()
      modifies this, breaker
      ensures breaker.Valid() && breaker.history == old(breaker.history) + AttemptEvents(a, r, structured)
      ensures r == Outcome(breaker.config, old(breaker.history), a, structured, useCache)
      ensures errors == old(errors) + if r == PermanentError && !structured then 1 else 0
    {
      var open := FailFast(a);
      if open {
        return Rejected;
      }
      if !structured && useCache && a.cached {
        return FromCache;
      }
      r := CallProvider(a, structured);
    }

    /**
     The same, and what it leaves: after an answer its own success is the last thing the breaker saw,
     so that it is closed and without failures; a transient failure is recorded last as well.
     */
    method Try(a: Attempt, structured: bool, useCache: bool) returns (r: Result)
      requires breaker.Valid()
      modifies this, breaker
      ensures breaker.Valid() && breaker.history == old(breaker.history) + AttemptEvents(a, r, structured)
      ensures r == Outcome(breaker.config, old(breaker.history), a, structured, useCache)
      ensures r == Answered ==>
        breaker.history[|breaker.history| - 1..] == [Success(a.doneAt)]
        && breaker.failures == 0 && breaker.state == Closed
      ensures r == TransientError ==> breaker.history[|breaker.history| - 1..] == [Failure(a.doneAt)]
      ensures errors == old(errors) + if r == PermanentError && !structured then 1 else 0
    {
      r := TryOnce(a, structured, useCache);
      if Reached(r) { AttemptEnds(breaker.config, old(breaker.history), a, r, structured); }
    }

    /** One more attempt of a call, entered in the call's account. */
    method TryAgain(attempts: seq<Attempt>, n: nat, structured: bool, useCache: bool,
                    ghost start: seq<Event>, ghost results: seq<Result>)
      returns (r: Result, ghost longer: seq<Result>)
      requires breaker.Valid() && n < |attempts|
      requires Accounted(breaker.config, start, breaker.history, attempts[..n], results, structured, useCache)
      modifies this, breaker
      ensures breaker.Valid() && longer == results + [r]
      ensures Accounted(breaker.config, start, breaker.history, attempts[..n + 1], longer, structured, useCache)
      ensures errors == old(errors) + if r == PermanentError && !structured then 1 else 0
    {
      ghost var before := breaker.history;
      r := Try(attempts[n], structured, useCache);
      OneMoreAttempt(breaker.config, start, before, attempts[..n], results, attempts[n], r, structured, useCache);
      assert attempts[..n] + [attempts[n]] == attempts[..n + 1];
      longer := results + [r];
    }

    /** From attempt n on: again after a rejection or a transient failure, up to three times in all. */
    method RetryFrom(attempts: seq<Attempt>, n: nat, structured: bool, useCache: bool,
                     ghost start: seq<Event>, ghost earlier: seq<Result>)
      returns (r: Result, tries: nat, ghost results: seq<Result>)
      requires breaker.Valid() && n < MAX_ATTEMPTS == |attempts| && OnlyRetriable(earlier)
      requires Accounted(breaker.config, start, breaker.history, attempts[..n], earlier, structured, useCache)
      modifies this, breaker
      ensures breaker.Valid() && n < tries <= MAX_ATTEMPTS
      ensures results != [] && r == results[|results| - 1] && OnlyRetriable(results[..|results| - 1])
      ensures Accounted(breaker.config, start, breaker.history, attempts[..tries], results, structured, useCache)
      ensures Retriable(r) ==> tries == MAX_ATTEMPTS
      ensures errors == old(errors) + if r == PermanentError && !structured then 1 else 0
      decreases MAX_ATTEMPTS - n
    {
      r, results := TryAgain(attempts, n, structured, useCache, start, earlier);
      tries := n + 1;
      assert results[..|results| - 1] == earlier;
      if Retriable(r) && tries < MAX_ATTEMPTS {
        r, tries, results := RetryFrom(attempts, tries, structured, useCache, start, results);
      }
    }

    /**
     The retried call. At most three attempts, so at most three provider calls and three recorded
     failures; only rejections and transient failures are retried, and a rejection is never
     counted as a failure. Once answered, the breaker is closed and has no failures.
     */
    method CallLlm(attempts: seq<Attempt>, structured: bool, useCache: bool)
      returns (r: Result, tries: nat, ghost results: seq<Result>)
      requires breaker.Valid() && |attempts| == 3
      modifies this, breaker
      ensures 1 <= tries == |results| <= 3 && r == results[tries - 1]
      ensures breaker.Valid() && Accounted(
        breaker.config, old(breaker.history), breaker.history, attempts[..tries], results, structured, useCache)
      ensures forall i | 0 <= i < tries - 1 :: results[i] == Rejected || results[i] == TransientError
      ensures r == Rejected || r == TransientError ==> tries == 3
      ensures ProviderCalls(results) <= tries
      ensures ProviderCalls(results)
        == Number(results, TransientError) + (if r == Answered || r == PermanentError then 1 else 0)
      ensures r == Answered ==> breaker.failures == 0 && breaker.state == Closed
      ensures errors == old(errors) + if r == PermanentError && !structured then 1 else 0
    {
      ghost var start := breaker.history;
      r, tries, results := RetryFrom(attempts, 0, structured, useCache, start, []);
      RetriedResults(results);
      AnsweredHeals(breaker.config, start, breaker.history, attempts[..tries], results, structured, useCache);
    }
  }
}
