/**
 The circuit breaker around LLM calls, shared by every caller, and the three-attempt retry loop
 that runs under it.
 */
module CircuitBreaking {
  import opened Options

  datatype State = Closed | Open | HalfOpen

  datatype Breaker = Breaker(failures: nat, lastFailure: Option<int>, state: State)

  datatype Config = Config(threshold: int, timeout: int)

  /** Reading is_open, and the two recordings, each at a clock time. */
  datatype Event = Check(at: int) | Success(at: int) | Failure(at: int)

  const FRESH := Breaker(0, None, Closed)

  /** The breaker after an event, and for a check whether the call is let through. */
  function Step(c: Config, b: Breaker, e: Event): (Breaker, bool) {
    match e
    case Check(at) =>
      if b.state == Open && b.lastFailure.Some? && at - b.lastFailure.value >= c.timeout
      then (b.(state := HalfOpen), true)
      else (b, b.state != Open)
    case Success(_) => (Breaker(0, b.lastFailure, Closed), true)
    case Failure(at) =>
      (Breaker(b.failures + 1, Some(at), if b.failures + 1 >= c.threshold then Open else b.state), true)
  }

  function Run(c: Config, h: seq<Event>): Breaker {
    if h == [] then FRESH else Step(c, Run(c, h[..|h| - 1]), h[|h| - 1]).0
  }

  // ---- the history, without the breaker ----

  /** Failures since the last success. */
  function TrailingFailures(h: seq<Event>): nat {
    if h == [] then 0
    else
      match h[|h| - 1]
      case Check(_) => TrailingFailures(h[..|h| - 1])
      case Success(_) => 0
      case Failure(_) => TrailingFailures(h[..|h| - 1]) + 1
  }

  ghost predicate LatestFailure(h: seq<Event>, i: nat) {
    i < |h| && h[i].Failure? && forall j | i < j < |h| :: !h[j].Failure?
  }

  ghost predicate ClockAdvances(h: seq<Event>) {
    forall i, j | 0 <= i <= j < |h| :: h[i].at <= h[j].at
  }

  /** Main result: the count is the trailing failures, and closed means below the threshold. */
  lemma {:induction false} BreakerCountsTrailingFailures(c: Config, h: seq<Event>)
    requires c.threshold >= 1
    ensures Run(c, h).failures == TrailingFailures(h)
    ensures Run(c, h).state == Closed <==> TrailingFailures(h) < c.threshold
    ensures forall i: nat | LatestFailure(h, i) :: Run(c, h).lastFailure == Some(h[i].at)
    ensures TrailingFailures(h) > 0 ==> exists i: nat :: LatestFailure(h, i)
  {
    if h != [] {
      var n := |h| - 1;
      BreakerCountsTrailingFailures(c, h[..n]);
      if h[n].Failure? {
        assert LatestFailure(h, n);
      } else {
        assert forall i: nat :: LatestFailure(h, i) <==> LatestFailure(h[..n], i);
      }
    }
  }

  lemma {:induction false} HalfOpenMeansTimedOut(c: Config, h: seq<Event>)
    requires c.threshold >= 1 && ClockAdvances(h)
    ensures Run(c, h).state == HalfOpen ==>
      h != [] && Run(c, h).lastFailure.Some? && h[|h| - 1].at - Run(c, h).lastFailure.value >= c.timeout
  {
    if h != [] {
      BreakerCountsTrailingFailures(c, h);
      HalfOpenMeansTimedOut(c, h[..|h| - 1]);
      BreakerCountsTrailingFailures(c, h[..|h| - 1]);
    }
  }

  /**
   Main result: at any point of any run a call is let through exactly when fewer failures than the
   threshold trail, or the recovery timeout has passed since the latest failure. Once it has, every
   caller is let through until one of them fails.
   */
  lemma AdmittedIff(c: Config, h: seq<Event>, at: int)
    requires c.threshold >= 1 && ClockAdvances(h + [Check(at)])
    ensures Step(c, Run(c, h), Check(at)).1
       <==> TrailingFailures(h) < c.threshold || exists i: nat :: LatestFailure(h, i) && at - h[i].at >= c.timeout
  {
    var all := h + [Check(at)];
    assert forall i | 0 <= i < |h| :: all[i] == h[i];
    assert all[|h|] == Check(at);
    BreakerCountsTrailingFailures(c, h);
    HalfOpenMeansTimedOut(c, h);
  }

  // ---- the retry loop ----

  /** What the provider does: a reply, a reply whose usage cannot be read, or one of two failures. */
  datatype Reply = Ok | Malformed | Transient | Permanent

  datatype Result = Answered | FromCache | Rejected | TransientError | PermanentError

  /** One attempt as the environment plays it, with what other callers do before and during it. */
  datatype Attempt = Attempt(
    before: seq<Event>, at: int, cached: bool, during: seq<Event>, reply: Reply, doneAt: int)

  /** What one provider reply makes of the breaker; a reply that cannot be read was a success first. */
  function Recorded(reply: Reply, structured: bool, at: int): seq<Event> {
    match reply
    case Ok => [Success(at)]
    case Malformed => if structured then [] else [Success(at)]
    case Transient => [Failure(at)]
    case Permanent => []
  }

  predicate Reached(r: Result) { r == Answered || r == TransientError || r == PermanentError }

  /** How an attempt ends, given everything the breaker has seen before it. */
  function Outcome(c: Config, h: seq<Event>, a: Attempt, structured: bool, useCache: bool): Result {
    if !Step(c, Run(c, h + a.before), Check(a.at)).1 then Rejected
    else if !structured && useCache && a.cached then FromCache
    else match a.reply case Ok => Answered case Transient => TransientError case _ => PermanentError
  }

  /** All the breaker sees of an attempt: others, the own check, others again, the own record. */
  function AttemptEvents(a: Attempt, r: Result, structured: bool): seq<Event> {
    a.before + [Check(a.at)] + if Reached(r) then a.during + Recorded(a.reply, structured, a.doneAt) else []
  }

  function CallEvents(attempts: seq<Attempt>, results: seq<Result>, structured: bool): seq<Event>
    requires |attempts| == |results|
  {
    if attempts == [] then []
    else
      var n := |attempts| - 1;
      CallEvents(attempts[..n], results[..n], structured) + AttemptEvents(attempts[n], results[n], structured)
  }

  /** Every attempt ended as the breaker's history before it and the provider determine. */
  ghost predicate Played(
      c: Config, h: seq<Event>, attempts: seq<Attempt>, results: seq<Result>, structured: bool, useCache: bool)
    requires |attempts| == |results|
  {
    attempts == [] ||
    (var n := |attempts| - 1;
     && Played(c, h, attempts[..n], results[..n], structured, useCache)
     && results[n]
        == Outcome(c, h + CallEvents(attempts[..n], results[..n], structured), attempts[n], structured, useCache))
  }

  function Number(results: seq<Result>, r: Result): nat {
    if results == [] then 0
    else Number(results[..|results| - 1], r) + if results[|results| - 1] == r then 1 else 0
  }

  /** What the breaker has seen since `start`, as the attempts and their results account for it. */
  ghost predicate Accounted(
      c: Config, start: seq<Event>, now: seq<Event>, attempts: seq<Attempt>, results: seq<Result>,
      structured: bool, useCache: bool)
  {
    && |attempts| == |results|
    && now == start + CallEvents(attempts, results, structured)
    && Played(c, start, attempts, results, structured, useCache)
  }

  lemma OneMoreAttempt(
      c: Config, start: seq<Event>, now: seq<Event>, attempts: seq<Attempt>, results: seq<Result>,
      a: Attempt, r: Result, structured: bool, useCache: bool)
    requires Accounted(c, start, now, attempts, results, structured, useCache)
    requires r == Outcome(c, now, a, structured, useCache)
    ensures Accounted(
      c, start, now + AttemptEvents(a, r, structured), attempts + [a], results + [r], structured, useCache)
  {
    assert (attempts + [a])[..|attempts|] == attempts && (results + [r])[..|results|] == results;
  }

  /** How many attempts got as far as the provider. */
  function ProviderCalls(results: seq<Result>): nat {
    if results == [] then 0
    else ProviderCalls(results[..|results| - 1]) + if Reached(results[|results| - 1]) then 1 else 0
  }

  /** TRANSIENT_ERRORS are retried, and the rejection is one of them. */
  predicate Retriable(r: Result) { r == Rejected || r == TransientError }

  predicate OnlyRetriable(results: seq<Result>) { forall i | 0 <= i < |results| :: Retriable(results[i]) }

  lemma {:induction false} RetriableCalls(results: seq<Result>)
    requires OnlyRetriable(results)
    ensures ProviderCalls(results) == Number(results, TransientError) <= |results|
  {
    if results != [] { RetriableCalls(results[..|results| - 1]); }
  }

  /** Only the last attempt can have reached the provider without a transient failure. */
  lemma RetriedResults(results: seq<Result>)
    requires results != [] && OnlyRetriable(results[..|results| - 1])
    ensures ProviderCalls(results) <= |results|
    ensures ProviderCalls(results) == Number(results, TransientError)
      + (if results[|results| - 1] == Answered || results[|results| - 1] == PermanentError then 1 else 0)
    ensures forall i | 0 <= i < |results| - 1 :: results[i] == Rejected || results[i] == TransientError
  {
    var init := results[..|results| - 1];
    RetriableCalls(init);
    assert forall i | 0 <= i < |init| :: Retriable(init[i]) && init[i] == results[i];
  }

  /** A success wipes out all failures, whatever came before. */
  lemma SuccessHeals(c: Config, h: seq<Event>, at: int)
    ensures Run(c, h + [Success(at)]).failures == 0 && Run(c, h + [Success(at)]).state == Closed
  {
    assert (h + [Success(at)])[..|h|] == h;
  }

  /** What the last event of an attempt is, and what it leaves, when the provider was reached. */
  lemma AttemptEnds(c: Config, h: seq<Event>, a: Attempt, r: Result, structured: bool)
    requires r == match a.reply case Ok => Answered case Transient => TransientError case _ => PermanentError
    ensures var all := h + AttemptEvents(a, r, structured);
      && (r == Answered ==> all[|all| - 1..] == [Success(a.doneAt)])
      && (r == Answered ==> Run(c, all).failures == 0 && Run(c, all).state == Closed)
      && (r == TransientError ==> all[|all| - 1..] == [Failure(a.doneAt)])
  {
    var all, before := h + AttemptEvents(a, r, structured), h + a.before + [Check(a.at)] + a.during;
    if r == Answered {
      assert all == before + [Success(a.doneAt)];
      SuccessHeals(c, before, a.doneAt);
    } else if r == TransientError {
      assert all == before + [Failure(a.doneAt)];
    }
  }

  /** A call whose last attempt was answered leaves the breaker closed and without failures. */
  lemma AnsweredHeals(
      c: Config, start: seq<Event>, now: seq<Event>, attempts: seq<Attempt>, results: seq<Result>,
      structured: bool, useCache: bool)
    requires Accounted(c, start, now, attempts, results, structured, useCache) && results != []
    ensures results[|results| - 1] == Answered ==> Run(c, now).failures == 0 && Run(c, now).state == Closed
  {
    var n := |results| - 1;
    if results[n] == Answered {
      var before := start + CallEvents(attempts[..n], results[..n], structured);
      AttemptEnds(c, before, attempts[n], Answered, structured);
      assert now == before + AttemptEvents(attempts[n], Answered, structured);
    }
  }

  const MAX_ATTEMPTS := 3

  class CircuitBreaker {
    const config: Config
    var failures: nat
    var lastFailure: Option<int>
    var state: State
    ghost var history: seq<Event>

    ghost predicate Valid()
      reads this
    {
      Breaker(failures, lastFailure, state) == Run(config, history)
    }

    constructor (config: Config)
      ensures Valid() && history == [] && this.config == config
    {
      this.config := config;
      failures, lastFailure, state, history := 0, None, Closed, [];
    }

    ghost method Remember(e: Event)
      modifies this`history
      ensures history == old(history) + [e] && history[..|history| - 1] == old(history)
    {
      history := history + [e];
    }

    /** The is_open property, which also moves an expired open breaker to half-open. */
    method IsOpen(now: int) returns (open: bool)
      requires Valid()
      modifies this
      ensures Valid() && history == old(history) + [Check(now)]
      ensures open <==> !Step(config, Run(config, old(history)), Check(now)).1
    {
      Remember(Check(now));
      if state == Open && lastFailure.Some? && now - lastFailure.value >= config.timeout {
        state := HalfOpen;
        return false;
      }
      return state == Open;
    }

    method RecordSuccess(now: int)
      requires Valid()
      modifies this
      ensures Valid() && history == old(history) + [Success(now)]
    {
      Remember(Success(now));
      failures, state := 0, Closed;
    }

    method RecordFailure(now: int)
      requires Valid()
      modifies this
      ensures Valid() && history == old(history) + [Failure(now)]
    {
      Remember(Failure(now));
      failures, lastFailure := failures + 1, Some(now);
      if failures >= config.threshold {
        state := Open;
      }
    }

    method Interfere(events: seq<Event>)
      requires Valid()
      modifies this
      ensures Valid() && history == old(history) + events
    {
      for i := 0 to |events|
        invariant Valid() && history == old(history) + events[..i]
      {
        assert events[..i + 1] == events[..i] + [events[i]];
        match events[i] {
          case Check(at) => var _ := IsOpen(at);
          case Success(at) => RecordSuccess(at);
          case Failure(at) => RecordFailure(at);
        }
      }
      assert events[..|events|] == events;
    }
  }
}
