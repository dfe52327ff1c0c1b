/**
 The fixed-window rate limiter: one counter per key and clock minute, incremented by every request
 the database answers. Requests of many keys and workers come in any order.
 */
module RateLimit {
  import opened Numbers

  /** Timestamps are in microseconds. */
  const MINUTE := 60_000_000

  /** A request, the limit its caller passes, and whether the database answered. */
  datatype Request = Request(key: string, at: int, limit: int, answered: bool)

  type Counts = map<(string, int), nat>

  /** date_trunc('minute', at) */
  function Window(at: int): int { at / MINUTE }

  function CountOf(counts: Counts, key: string, window: int): nat {
    if (key, window) in counts then counts[(key, window)] else 0
  }

  /** The new counters, and whether the request is allowed; a database error allows it. */
  function Step(counts: Counts, r: Request): (Counts, bool) {
    if !r.answered then (counts, true)
    else
      var n := CountOf(counts, r.key, Window(r.at)) + 1;
      (counts[(r.key, Window(r.at)) := n], n <= r.limit)
  }

  function Run(h: seq<Request>): Counts {
    if h == [] then map[] else Step(Run(h[..|h| - 1]), h[|h| - 1]).0
  }

  function Allowed(h: seq<Request>, i: nat): bool
    requires i < |h|
  {
    Step(Run(h[..i]), h[i]).1
  }

  // ---- counting in the history ----

  /** An answered request of the key in the window-th minute of the clock, in microseconds. */
  predicate InWindow(r: Request, key: string, window: int) {
    r.answered && r.key == key && 60_000_000 * window <= r.at < 60_000_000 * (window + 1)
  }

  /** Answered requests of a key in a minute. */
  function Requests(h: seq<Request>, key: string, window: int): nat {
    if h == [] then 0
    else Requests(h[..|h| - 1], key, window) + if InWindow(h[|h| - 1], key, window) then 1 else 0
  }

  /** Those of them that were allowed. */
  function AllowedIn(h: seq<Request>, key: string, window: int): nat {
    if h == [] then 0
    else
      AllowedIn(h[..|h| - 1], key, window)
      + if InWindow(h[|h| - 1], key, window) && Allowed(h, |h| - 1) then 1 else 0
  }

  /** Allowed, answered requests of a key in a closed span of time. */
  function AllowedBetween(h: seq<Request>, key: string, from: int, to: int): nat {
    if h == [] then 0
    else
      var r := h[|h| - 1];
      AllowedBetween(h[..|h| - 1], key, from, to)
      + if r.answered && r.key == key && from <= r.at <= to && Allowed(h, |h| - 1) then 1 else 0
  }

  ghost predicate LimitIs(h: seq<Request>, key: string, limit: nat) {
    forall r | r in h && r.key == key :: r.limit == limit
  }

  lemma WindowIs(at: int, window: int)
    ensures Window(at) == window <==> 60_000_000 * window <= at < 60_000_000 * (window + 1)
  {
  }

  /** A request during a database error is allowed, and counts for nobody. */
  lemma {:induction false} UnansweredAreFree(h: seq<Request>, i: nat)
    requires i < |h| && !h[i].answered
    ensures Allowed(h, i) && Run(h) == Run(h[..i] + h[i + 1..])
    decreases |h|
  {
    var rest := h[..i] + h[i + 1..];
    if i == |h| - 1 {
      assert rest == h[..i];
    } else {
      var init := h[..|h| - 1];
      assert init[..i] == h[..i] && init[i] == h[i];
      UnansweredAreFree(init, i);
      assert rest[..|rest| - 1] == init[..i] + init[i + 1..] && rest[|rest| - 1] == h[|h| - 1];
    }
  }

  lemma {:induction false} CounterCountsRequests(h: seq<Request>, key: string, window: int)
    ensures CountOf(Run(h), key, window) == Requests(h, key, window)
  {
    if h != [] {
      CounterCountsRequests(h[..|h| - 1], key, window);
      WindowIs(h[|h| - 1].at, window);
    }
  }

  /** An answered request is allowed exactly when it is among the first `limit` of its key and minute. */
  lemma AllowedIffAmongFirst(h: seq<Request>, i: nat, window: int)
    requires i < |h| && InWindow(h[i], h[i].key, window)
    ensures Allowed(h, i) <==> Requests(h[..i + 1], h[i].key, window) <= h[i].limit
  {
    WindowIs(h[i].at, window);
    CounterCountsRequests(h[..i], h[i].key, window);
    assert h[..i + 1][..i] == h[..i];
  }

  lemma {:induction false} RequestsGrow(h: seq<Request>, key: string, window: int, i: nat)
    requires i <= |h|
    ensures Requests(h[..i], key, window) <= Requests(h, key, window)
  {
    if i < |h| {
      assert h[..|h| - 1][..i] == h[..i];
      RequestsGrow(h[..|h| - 1], key, window, i);
    } else {
      assert h[..i] == h;
    }
  }

  /** The allowed requests of a minute are its earliest ones. */
  lemma EarliestAreAllowed(h: seq<Request>, i: nat, j: nat, key: string, window: int)
    requires i < j < |h| && InWindow(h[i], key, window) && InWindow(h[j], key, window)
    requires h[i].limit == h[j].limit && Allowed(h, j)
    ensures Allowed(h, i)
  {
    AllowedIffAmongFirst(h, i, window);
    AllowedIffAmongFirst(h, j, window);
    assert h[..j + 1][..i + 1] == h[..i + 1];
    RequestsGrow(h[..j + 1], key, window, i + 1);
  }

  /** Main result: in every clock minute exactly min(requests, limit) requests of a key are allowed. */
  lemma {:induction false} ExactlyLimitPerMinute(h: seq<Request>, key: string, window: int, limit: nat)
    requires LimitIs(h, key, limit)
    ensures AllowedIn(h, key, window) == Min(Requests(h, key, window), limit)
  {
    if h != [] {
      var n := |h| - 1;
      ExactlyLimitPerMinute(h[..n], key, window, limit);
      if InWindow(h[n], key, window) {
        assert h[n] in h;
        AllowedIffAmongFirst(h, n, window);
        assert h[..n + 1] == h;
      }
    }
  }

  lemma {:induction false} SpanCoveredByTwoMinutes(h: seq<Request>, key: string, from: int, to: int)
    requires from <= to <= from + 60_000_000
    ensures AllowedBetween(h, key, from, to)
         <= AllowedIn(h, key, Window(from)) + AllowedIn(h, key, Window(from) + 1)
    ensures (forall r | r in h :: from <= r.at <= to) && Window(to) == Window(from) + 1 ==>
      AllowedBetween(h, key, from, to) == AllowedIn(h, key, Window(from)) + AllowedIn(h, key, Window(from) + 1)
  {
    if h != [] {
      var r := h[|h| - 1];
      SpanCoveredByTwoMinutes(h[..|h| - 1], key, from, to);
      assert r in h;
      if from <= r.at <= to {
        assert Window(from) <= Window(r.at) <= Window(to) <= Window(from) + 1;
        WindowIs(r.at, Window(from));
        WindowIs(r.at, Window(from) + 1);
      }
    }
  }

  /** Main result: any span of at most sixty seconds holds at most twice the limit. */
  lemma SlidingWindowBound(h: seq<Request>, key: string, limit: nat, from: int, to: int)
    requires LimitIs(h, key, limit) && from <= to <= from + 60_000_000
    ensures AllowedBetween(h, key, from, to) <= 2 * limit
  {
    SpanCoveredByTwoMinutes(h, key, from, to);
    ExactlyLimitPerMinute(h, key, Window(from), limit);
    ExactlyLimitPerMinute(h, key, Window(from) + 1, limit);
  }

  // ---- the bound is reached ----

  function Burst(key: string, limit: nat, n: nat): seq<Request> {
    if n == 0 then []
    else Burst(key, limit, n - 1) + [Request(key, if n <= limit then 59_999_999 else 60_000_000, limit, true)]
  }

  lemma {:induction false} BurstRequests(key: string, limit: nat, n: nat)
    ensures |Burst(key, limit, n)| == n
    ensures forall r | r in Burst(key, limit, n) :: r.key == key && r.limit == limit && 59_999_999 <= r.at <= 60_000_000
  {
    if n != 0 {
      BurstRequests(key, limit, n - 1);
    }
  }

  lemma OneMoreRequest(h: seq<Request>, r: Request, key: string, window: int)
    ensures Requests(h + [r], key, window) == Requests(h, key, window) + if InWindow(r, key, window) then 1 else 0
  {
    assert (h + [r])[..|h|] == h;
  }

  lemma {:induction false} BurstCounts(key: string, limit: nat, n: nat)
    ensures Requests(Burst(key, limit, n), key, 0) == Min(n, limit)
    ensures Requests(Burst(key, limit, n), key, 1) == n - Min(n, limit)
  {
    if n != 0 {
      BurstCounts(key, limit, n - 1);
      var r := Request(key, if n <= limit then 59_999_999 else 60_000_000, limit, true);
      assert Window(r.at) == if n <= limit then 0 else 1;
      OneMoreRequest(Burst(key, limit, n - 1), r, key, 0);
      OneMoreRequest(Burst(key, limit, n - 1), r, key, 1);
    }
  }

  /** Twice the limit within one microsecond, across a minute boundary. */
  lemma SlidingWindowBoundIsTight(key: string, limit: nat)
    ensures AllowedBetween(Burst(key, limit, 2 * limit), key, 59_999_999, 60_000_000) == 2 * limit
  {
    var h := Burst(key, limit, 2 * limit);
    BurstCounts(key, limit, 2 * limit);
    BurstRequests(key, limit, 2 * limit);
    assert Window(59_999_999) == 0 && Window(60_000_000) == 1;
    SpanCoveredByTwoMinutes(h, key, 59_999_999, 60_000_000);
    ExactlyLimitPerMinute(h, key, 0, limit);
    ExactlyLimitPerMinute(h, key, 1, limit);
  }

  // ---- the table ----

  class RateLimiter {
    var counts: Counts

    constructor ()
      ensures counts == Run([])
    {
      counts := map[];
    }

    method CheckRateLimit(key: string, limit: int, now: int, answered: bool) returns (allowed: bool)
      modifies this
      ensures (counts, allowed) == Step(old(counts), Request(key, now, limit, answered))
    {
      if !answered {
        return true;
      }
      var slot := (key, Window(now));
      if slot in counts {
        counts := counts[slot := counts[slot] + 1];
      } else {
        counts := counts[slot := 1];
      }
      return counts[slot] <= limit;
    }
  }
}
