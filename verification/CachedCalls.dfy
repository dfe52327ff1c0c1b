/**
 The cached decorator: look a key up, call the function on a miss, store what it returned. Many
 calls run at once; their lookups, computations and stores interleave, and any of them may fail.
 */
module CachedCalls {
  import opened Options

  type Value = string
  type CallId = nat

  /** prefix:sha256(raw), with the digest taken to be injective; the prefix names the function. */
  datatype Key = Key(prefix: string, raw: string)

  datatype Row = Row(data: Value, expires: int)
  type Rows = map<Key, Row>

  /** What the wrapped function does when it is called. */
  datatype Computation = Returns(value: Value) | ReturnsNone | Raises

  datatype Outcome = Value(value: Value) | NoneValue | Raised

  /** What a caller of the function without the decorator gets. */
  function Plain(c: Computation): Outcome {
    match c
    case Returns(v) => Value(v)
    case ReturnsNone => NoneValue
    case Raises => Raised
  }

  /** How far a call is. Its key is None when building it, or reaching the store, raised. */
  datatype Call =
    | Missed(key: Option<Key>)
    | Computed(key: Option<Key>, c: Computation)
    | Finished(key: Option<Key>, result: Outcome)

  datatype World = World(rows: Rows, calls: map<CallId, Call>)

  /** One step of one call, or the removal of a row. A step that is not up reached no database. */
  datatype Event =
    | Lookup(id: CallId, key: Option<Key>, at: int, up: bool)
    | Compute(id: CallId, c: Computation)
    | Finish(id: CallId, ttl: int, at: int, up: bool)
    | Evict(evicted: Key)

  /** cache_get: errors and expired rows are misses. */
  function Found(rows: Rows, key: Option<Key>, at: int, up: bool): Option<Value> {
    if key.Some? && up && key.value in rows && rows[key.value].expires > at then Some(rows[key.value].data) else None
  }

  /** A call stores only a value its function returned, and never None. */
  function Stored(rows: Rows, call: Call, ttl: int, at: int, up: bool): Rows
    requires call.Computed?
  {
    if call.key.Some? && call.c.Returns? && up then rows[call.key.value := Row(call.c.value, at + ttl)] else rows
  }

  function AfterLookup(key: Option<Key>, found: Option<Value>): Call {
    if found.Some? then Finished(key, Value(found.value)) else Missed(key)
  }

  /** A call looks up once, then computes once, then finishes once. */
  function Step(w: World, e: Event): World {
    match e
    case Lookup(id, key, at, up) =>
      if id in w.calls then w
      else w.(calls := w.calls[id := AfterLookup(key, Found(w.rows, key, at, up))])
    case Compute(id, c) =>
      if id in w.calls && w.calls[id].Missed? then w.(calls := w.calls[id := Computed(w.calls[id].key, c)]) else w
    case Finish(id, ttl, at, up) =>
      if id in w.calls && w.calls[id].Computed? then
        World(Stored(w.rows, w.calls[id], ttl, at, up),
              w.calls[id := Finished(w.calls[id].key, Plain(w.calls[id].c))])
      else w
    case Evict(key) => w.(rows := w.rows - {key})
  }

  function Run(h: seq<Event>): World {
    if h == [] then World(map[], map[]) else Step(Run(h[..|h| - 1]), h[|h| - 1])
  }

  // ---- where rows come from ----

  /** The j-th event is the call's own computation, after a lookup of the key that missed. */
  ghost predicate Computes(h: seq<Event>, j: nat, id: CallId, key: Option<Key>, c: Computation) {
    && j < |h| && h[j] == Compute(id, c)
    && id in Run(h[..j]).calls && Run(h[..j]).calls[id] == Missed(key)
  }

  /** The m-th event stores what its call computed under the key. */
  ghost predicate Stores(h: seq<Event>, m: nat, key: Key) {
    && m < |h| && h[m].Finish? && h[m].up
    && h[m].id in Run(h[..m]).calls
    && Run(h[..m]).calls[h[m].id].Computed? && Run(h[..m]).calls[h[m].id].key == Some(key)
    && Run(h[..m]).calls[h[m].id].c.Returns?
  }

  /** The m-th event is the latest store of the key, with no eviction since. */
  ghost predicate LatestStore(h: seq<Event>, key: Key, m: nat) {
    && Stores(h, m, key)
    && forall k: nat | m < k < |h| :: !Stores(h, k, key) && h[k] != Evict(key)
  }

  lemma StoresStays(h: seq<Event>, m: nat, key: Key)
    requires h != [] && m < |h| - 1
    ensures Stores(h, m, key) <==> Stores(h[..|h| - 1], m, key)
  {
    assert h[..|h| - 1][..m] == h[..m];
  }

  lemma ComputesStays(h: seq<Event>, j: nat, id: CallId, key: Option<Key>, c: Computation)
    requires h != [] && Computes(h[..|h| - 1], j, id, key, c)
    ensures Computes(h, j, id, key, c)
  {
    assert h[..|h| - 1][..j] == h[..j];
  }

  lemma LatestStoreStays(h: seq<Event>, key: Key, m: nat)
    requires h != [] && m < |h| - 1
    ensures LatestStore(h, key, m)
       <==> LatestStore(h[..|h| - 1], key, m) && !Stores(h, |h| - 1, key) && h[|h| - 1] != Evict(key)
  {
    forall k: nat | k < |h| - 1
      ensures Stores(h, k, key) <==> Stores(h[..|h| - 1], k, key)
    {
      StoresStays(h, k, key);
    }
  }

  /** The m-th event's row: the value its call computed, and the expiry it was stored with. */
  ghost function RowOf(h: seq<Event>, m: nat, key: Key): Row
    requires Stores(h, m, key)
  {
    Row(Run(h[..m]).calls[h[m].id].c.value, h[m].at + h[m].ttl)
  }

  lemma {:induction false} RowIsLatestStore(h: seq<Event>, key: Key)
    ensures key in Run(h).rows <==> exists m: nat :: LatestStore(h, key, m)
    ensures forall m: nat | LatestStore(h, key, m) :: key in Run(h).rows && Run(h).rows[key] == RowOf(h, m, key)
    decreases |h|
  {
    if h != [] {
      var n := |h| - 1;
      RowIsLatestStore(h[..n], key);
      forall m: nat | m < n
        ensures LatestStore(h, key, m) <==> LatestStore(h[..n], key, m) && !Stores(h, n, key) && h[n] != Evict(key)
        ensures LatestStore(h, key, m) ==> RowOf(h, m, key) == RowOf(h[..n], m, key)
      {
        LatestStoreStays(h, key, m);
        StoresStays(h, m, key);
        assert h[..n][..m] == h[..m];
      }
      if Stores(h, n, key) {
        assert LatestStore(h, key, n);
      } else if key in Run(h).rows {
        RowUntouched(Run(h[..n]), h, key);
        var m: nat :| LatestStore(h[..n], key, m);
        assert LatestStore(h, key, m);
      } else if h[n] != Evict(key) {
        RowUntouched(Run(h[..n]), h, key);
      }
    }
  }

  lemma RowUntouched(before: World, h: seq<Event>, key: Key)
    requires h != [] && before == Run(h[..|h| - 1]) && !Stores(h, |h| - 1, key)
    ensures if h[|h| - 1] == Evict(key) then key !in Run(h).rows
      else (key in Run(h).rows <==> key in before.rows)
           && (key in before.rows ==> Run(h).rows[key] == before.rows[key])
  {
  }

  // ---- where values come from ----

  /** What a call has computed when it is about to finish, it has computed itself. */
  lemma {:induction false} ComputedByItself(h: seq<Event>, id: CallId)
    requires id in Run(h).calls && Run(h).calls[id].Computed?
    ensures exists j: nat :: Computes(h, j, id, Run(h).calls[id].key, Run(h).calls[id].c)
    decreases |h|
  {
    var n, call := |h| - 1, Run(h).calls[id];
    if id in Run(h[..n]).calls && Run(h[..n]).calls[id] == call {
      ComputedByItself(h[..n], id);
      var j: nat :| Computes(h[..n], j, id, call.key, call.c);
      ComputesStays(h, j, id, call.key, call.c);
    } else {
      assert Computes(h, n, id, call.key, call.c);
    }
  }

  /**
   The value was computed by a call of the same key, which stored it less than its ttl ago; it has
   been neither overwritten nor evicted since.
   */
  ghost predicate FreshlyComputed(h: seq<Event>, key: Key, v: Value, at: int) {
    exists m: nat, j: nat ::
      && LatestStore(h, key, m) && at < h[m].at + h[m].ttl
      && j < m && Computes(h, j, h[m].id, Some(key), Returns(v))
  }

  lemma RowIsFreshlyComputed(h: seq<Event>, key: Key, v: Value, at: int)
    requires Found(Run(h).rows, Some(key), at, true) == Some(v)
    ensures FreshlyComputed(h, key, v, at)
  {
    RowIsLatestStore(h, key);
    var m: nat :| LatestStore(h, key, m);
    ComputedByItself(h[..m], h[m].id);
    var j: nat :| Computes(h[..m], j, h[m].id, Some(key), Returns(v));
    assert h[..m][..j] == h[..j];
    assert Computes(h, j, h[m].id, Some(key), Returns(v));
  }

  /** A call computes once: what it stores is what its one computation gave. */
  lemma {:induction false} OneComputation(h: seq<Event>, j: nat, id: CallId, key: Option<Key>, c: Computation)
    requires Computes(h, j, id, key, c)
    ensures id in Run(h).calls && Run(h).calls[id] in {Computed(key, c), Finished(key, Plain(c))}
    decreases |h|
  {
    if j < |h| - 1 {
      assert h[..|h| - 1][..j] == h[..j];
      OneComputation(h[..|h| - 1], j, id, key, c);
    }
  }

  lemma FreshlyComputedIsFound(h: seq<Event>, key: Key, v: Value, at: int)
    requires FreshlyComputed(h, key, v, at)
    ensures Found(Run(h).rows, Some(key), at, true) == Some(v)
  {
    var m: nat, j: nat :| LatestStore(h, key, m) && at < h[m].at + h[m].ttl
                          && j < m && Computes(h, j, h[m].id, Some(key), Returns(v));
    RowIsLatestStore(h, key);
    assert h[..m][..j] == h[..j];
    OneComputation(h[..m], j, h[m].id, Some(key), Returns(v));
  }

  /** A lookup that reaches the database hits exactly the freshly computed value. */
  lemma {:induction false} HitIffFreshlyComputed(h: seq<Event>, key: Key, at: int, v: Value)
    ensures Found(Run(h).rows, Some(key), at, true) == Some(v) <==> FreshlyComputed(h, key, v, at)
  {
    if Found(Run(h).rows, Some(key), at, true) == Some(v) { RowIsFreshlyComputed(h, key, v, at); }
    if FreshlyComputed(h, key, v, at) { FreshlyComputedIsFound(h, key, v, at); }
  }

  // ---- what a call returns ----

  /** The l-th event is the lookup of the call. */
  ghost predicate Begins(h: seq<Event>, l: nat, id: CallId) {
    l < |h| && h[l].Lookup? && h[l].id == id && id !in Run(h[..l]).calls
  }

  /** The call finds a freshly computed value. */
  ghost predicate Hits(h: seq<Event>, l: nat)
    requires l < |h| && h[l].Lookup?
  {
    h[l].key.Some? && h[l].up && exists v :: FreshlyComputed(h[..l], h[l].key.value, v, h[l].at)
  }

  /** The result is what the call itself computed, after its lookup. */
  ghost predicate OwnResult(h: seq<Event>, l: nat, id: CallId, key: Option<Key>, result: Outcome) {
    exists j: nat, c :: l < j && Computes(h, j, id, key, c) && result == Plain(c)
  }

  ghost predicate Explained(h: seq<Event>, l: nat, id: CallId, call: Call)
    requires l < |h| && h[l].Lookup?
  {
    && call.key == h[l].key
    && match call
       case Missed(_) => !Hits(h, l)
       case Computed(key, c) => !Hits(h, l) && exists j: nat :: l < j && Computes(h, j, id, key, c)
       case Finished(key, result) =>
         if Hits(h, l) then result.Value? && FreshlyComputed(h[..l], key.value, result.value, h[l].at)
         else OwnResult(h, l, id, key, result)
  }

  lemma LookupExplained(h: seq<Event>, l: nat, id: CallId)
    requires h != [] && l == |h| - 1 && Begins(h, l, id)
    ensures id in Run(h).calls && Explained(h, l, id, Run(h).calls[id])
  {
    var e, w := h[l], Run(h[..l]);
    if e.key.Some? && e.up {
      forall v
        ensures Found(w.rows, e.key, e.at, true) == Some(v) <==> FreshlyComputed(h[..l], e.key.value, v, e.at)
      {
        HitIffFreshlyComputed(h[..l], e.key.value, e.at, v);
      }
    }
  }

  lemma ExplainedStays(h: seq<Event>, l: nat, id: CallId, call: Call)
    requires h != [] && l < |h| - 1 && h[l].Lookup? && Explained(h[..|h| - 1], l, id, call)
    ensures Explained(h, l, id, call)
  {
    var init := h[..|h| - 1];
    assert init[..l] == h[..l];
    assert Hits(h, l) == Hits(init, l);
    forall j: nat, c | Computes(init, j, id, call.key, c)
      ensures Computes(h, j, id, call.key, c)
    {
      ComputesStays(h, j, id, call.key, c);
    }
  }

  /** One event either leaves a call where it was or carries it one step on. */
  lemma CallAfterStep(w: World, e: Event, id: CallId)
    requires id in w.calls
    ensures id in Step(w, e).calls
    ensures var call, next := w.calls[id], Step(w, e).calls[id];
      if call.Missed? && e.Compute? && e.id == id then next == Computed(call.key, e.c)
      else if call.Computed? && e.Finish? && e.id == id then next == Finished(call.key, Plain(call.c))
      else next == call
  {
  }

  /** What carries a call on is its own computation. */
  lemma StepExplained(h: seq<Event>, l: nat, id: CallId, call: Call)
    requires h != [] && l < |h| - 1 && h[l].Lookup? && Explained(h, l, id, call)
    requires id in Run(h[..|h| - 1]).calls && call == Run(h[..|h| - 1]).calls[id]
    ensures id in Run(h).calls && Explained(h, l, id, Run(h).calls[id])
  {
    var n := |h| - 1;
    CallAfterStep(Run(h[..n]), h[n], id);
    if h[n].Compute? && h[n].id == id && call.Missed? {
      assert Computes(h, n, id, call.key, h[n].c);
    }
  }

  lemma {:induction false} CallExplained(h: seq<Event>, l: nat, id: CallId)
    requires Begins(h, l, id)
    ensures id in Run(h).calls && Explained(h, l, id, Run(h).calls[id])
    decreases |h|
  {
    if l == |h| - 1 {
      LookupExplained(h, l, id);
    } else {
      var init := h[..|h| - 1];
      assert init[..l] == h[..l];
      CallExplained(init, l, id);
      ExplainedStays(h, l, id, Run(init).calls[id]);
      StepExplained(h, l, id, Run(init).calls[id]);
    }
  }

  lemma {:induction false} EveryCallBegins(h: seq<Event>, id: CallId) returns (l: nat)
    requires id in Run(h).calls
    ensures Begins(h, l, id)
    decreases |h|
  {
    var n := |h| - 1;
    if id in Run(h[..n]).calls {
      l := EveryCallBegins(h[..n], id);
      assert h[..n][..l] == h[..l];
    } else {
      l := n;
    }
  }

  /**
   Main result: over every interleaving, failure and eviction, a finished call looked up once, and
   returned the freshly computed value if there was one that its lookup could reach, and otherwise
   exactly what it then computed itself. Whether its own store failed makes no difference.
   */
  lemma {:induction false} EveryResultIsComputed(h: seq<Event>, id: CallId) returns (l: nat)
    requires id in Run(h).calls && Run(h).calls[id].Finished?
    ensures Begins(h, l, id) && Run(h).calls[id].key == h[l].key
    ensures var result := Run(h).calls[id].result;
      if Hits(h, l) then result.Value? && FreshlyComputed(h[..l], h[l].key.value, result.value, h[l].at)
      else OwnResult(h, l, id, h[l].key, result)
  {
    l := EveryCallBegins(h, id);
    CallExplained(h, l, id);
  }

  /** What every call with the key that computes at all computes is the function's value there. */
  ghost predicate Pure(h: seq<Event>, f: Key -> Computation) {
    forall j: nat, id, key, c | Computes(h, j, id, Some(key), c) :: c == f(key)
  }

  lemma FreshValueIsFunctionValue(h: seq<Event>, l: nat, f: Key -> Computation, key: Key, v: Value, at: int)
    requires Pure(h, f) && l <= |h| && FreshlyComputed(h[..l], key, v, at)
    ensures f(key) == Returns(v)
  {
    var m: nat, j: nat :| LatestStore(h[..l], key, m) && at < h[..l][m].at + h[..l][m].ttl
                          && j < m && Computes(h[..l], j, h[..l][m].id, Some(key), Returns(v));
    assert h[..l][..j] == h[..j];
    assert Computes(h, j, h[m].id, Some(key), Returns(v));
  }

  /**
   Main result: for a function whose outcome depends on the key alone, the decorator cannot be told
   from the plain function, whatever interleaves, fails or is evicted.
   */
  lemma PureFunctionsAreTransparent(h: seq<Event>, f: Key -> Computation, id: CallId)
    requires Pure(h, f)
    requires id in Run(h).calls && Run(h).calls[id].Finished? && Run(h).calls[id].key.Some?
    ensures Run(h).calls[id].result == Plain(f(Run(h).calls[id].key.value))
  {
    var l := EveryResultIsComputed(h, id);
    if Hits(h, l) {
      FreshValueIsFunctionValue(h, l, f, h[l].key.value, Run(h).calls[id].result.value, h[l].at);
    }
  }

  // ---- calls that reach no database ----

  predicate Of(e: Event, id: CallId) { !e.Evict? && e.id == id }

  function Without(h: seq<Event>, id: CallId): seq<Event> {
    if h == [] then [] else Without(h[..|h| - 1], id) + if Of(h[|h| - 1], id) then [] else [h[|h| - 1]]
  }

  /** Neither the call's lookup nor its store reached the database. */
  predicate Unreached(h: seq<Event>, id: CallId) {
    forall e | e in h && Of(e, id) :: (e.Lookup? || e.Finish?) ==> !e.up
  }

  lemma RunOneMore(h: seq<Event>, e: Event)
    ensures Run(h + [e]) == Step(Run(h), e)
  {
    assert (h + [e])[..|h|] == h;
  }

  /** The same rows, and the same other calls; the second world has not seen the call. */
  ghost predicate SameButFor(w: World, u: World, id: CallId) {
    w.rows == u.rows && w.calls - {id} == u.calls && id !in u.calls
  }

  lemma OwnStepUnseen(w: World, u: World, e: Event, id: CallId)
    requires SameButFor(w, u, id) && Of(e, id) && ((e.Lookup? || e.Finish?) ==> !e.up)
    ensures SameButFor(Step(w, e), u, id)
  {
    assert Step(w, e).rows == w.rows;
    assert Step(w, e).calls - {id} == w.calls - {id};
  }

  /** A call that reached no database is invisible to the store and to every other call. */
  lemma {:induction false} FailuresLeaveNoTrace(h: seq<Event>, id: CallId)
    requires Unreached(h, id)
    ensures SameButFor(Run(h), Run(Without(h, id)), id)
    decreases |h|
  {
    if h != [] {
      var init, e := h[..|h| - 1], h[|h| - 1];
      FailuresLeaveNoTrace(init, id);
      if Of(e, id) {
        assert Without(h, id) == Without(init, id);
        assert e in h;
        OwnStepUnseen(Run(init), Run(Without(init, id)), e, id);
      } else {
        RunOneMore(Without(init, id), e);
        OthersUnaffected(Run(init), Run(Without(init, id)), e, id);
      }
    }
  }

  lemma OthersUnaffected(w: World, u: World, e: Event, id: CallId)
    requires SameButFor(w, u, id) && !Of(e, id)
    ensures SameButFor(Step(w, e), Step(u, e), id)
  {
    assert forall i | i != id :: (i in w.calls <==> i in u.calls) && (i in w.calls ==> w.calls[i] == u.calls[i]);
  }

  lemma LookupOutcome(h: seq<Event>, key: Option<Key>, at: int, up: bool)
    ensures var found := Found(Run(h).rows, key, at, up);
      && (found.Some? <==> key.Some? && up && exists v :: FreshlyComputed(h, key.value, v, at))
      && (found.Some? ==> FreshlyComputed(h, key.value, found.value, at))
  {
    if key.Some? && up {
      forall v
        ensures Found(Run(h).rows, key, at, true) == Some(v) <==> FreshlyComputed(h, key.value, v, at)
      {
        HitIffFreshlyComputed(h, key.value, at, v);
      }
    }
  }

  // ---- the wrapper ----

  /** The store together with the calls under way, each a coroutine with its local variables. */
  class ResponseCache {
    var rows: Rows
    var calls: map<CallId, Call>
    ghost var history: seq<Event>

    ghost predicate Valid()
      reads this
    {
      World(rows, calls) == Run(history)
    }

    constructor ()
      ensures Valid() && history == []
    {
      rows, calls, history := map[], map[], [];
    }

    method CacheGet(key: Option<Key>, at: int, up: bool) returns (hit: Option<Value>)
      ensures hit == Found(rows, key, at, up)
    {
      if key.None? || !up || key.value !in rows || rows[key.value].expires <= at {
        return None;
      }
      return Some(rows[key.value].data);
    }

    method CacheSet(key: Key, value: Value, ttl: int, at: int, up: bool)
      modifies this`rows
      ensures rows == if up then old(rows)[key := Row(value, at + ttl)] else old(rows)
    {
      if up { rows := rows[key := Row(value, at + ttl)]; }
    }

    method StoreResult(call: Call, ttl: int, at: int, up: bool)
      requires call.Computed?
      modifies this`rows
      ensures rows == Stored(old(rows), call, ttl, at, up)
    {
      if call.key.Some? && call.c.Returns? {
        CacheSet(call.key.value, call.c.value, ttl, at, up);
      }
    }

    method Look(id: CallId, key: Option<Key>, at: int, up: bool)
      modifies this`calls
      ensures World(rows, calls) == Step(old(World(rows, calls)), Lookup(id, key, at, up))
    {
      if id !in calls {
        var found := CacheGet(key, at, up);
        calls := calls[id := AfterLookup(key, found)];
      }
    }

    method Conclude(id: CallId, ttl: int, at: int, up: bool)
      modifies this`rows, this`calls
      ensures World(rows, calls) == Step(old(World(rows, calls)), Finish(id, ttl, at, up))
    {
      if id in calls && calls[id].Computed? {
        var call := calls[id];
        StoreResult(call, ttl, at, up);
        calls := calls[id := Finished(call.key, Plain(call.c))];
      }
    }

    /** One step of any call, or an eviction. */
    method Execute(e: Event)
      requires Valid()
      modifies this
      ensures Valid() && history == old(history) + [e]
    {
      RunOneMore(history, e);
      history := history + [e];
      match e {
        case Lookup(id, key, at, up) => Look(id, key, at, up);
        case Compute(id, c) =>
          if id in calls && calls[id].Missed? {
            calls := calls[id := Computed(calls[id].key, c)];
          }
        case Finish(id, ttl, at, up) => Conclude(id, ttl, at, up);
        case Evict(key) => rows := rows - {key};
      }
    }

    /** Steps of other calls leave this one where it is. */
    method ExecuteOthers(events: seq<Event>, id: CallId)
      requires Valid() && id in calls && forall e | e in events :: !Of(e, id)
      modifies this
      ensures Valid() && history == old(history) + events
      ensures id in calls && calls[id] == old(calls[id])
    {
      for i := 0 to |events|
        invariant Valid() && history == old(history) + events[..i]
        invariant id in calls && calls[id] == old(calls[id])
      {
        RunOneMore(history, events[i]);
        assert events[i] in events;
        Execute(events[i]);
      }
    }

    /** The lookup of a new call: it finds a freshly computed value if it can reach one. */
    method Begin(id: CallId, key: Option<Key>, at: int, up: bool) returns (found: Option<Value>)
      requires Valid() && id !in calls
      modifies this
      ensures Valid() && history == old(history) + [Lookup(id, key, at, up)]
      ensures id in calls && calls[id] == AfterLookup(key, found)
      ensures found.Some? <==> key.Some? && up && exists v :: FreshlyComputed(old(history), key.value, v, at)
      ensures found.Some? ==> FreshlyComputed(old(history), key.value, found.value, at)
    {
      LookupOutcome(history, key, at, up);
      RunOneMore(history, Lookup(id, key, at, up));
      found := CacheGet(key, at, up);
      Execute(Lookup(id, key, at, up));
    }

    method RunFunction(id: CallId, c: Computation)
      requires Valid() && id in calls && calls[id].Missed?
      modifies this
      ensures Valid() && history == old(history) + [Compute(id, c)]
      ensures id in calls && calls[id] == Computed(old(calls[id].key), c)
    {
      RunOneMore(history, Compute(id, c));
      Execute(Compute(id, c));
    }

    method End(id: CallId, ttl: int, at: int, up: bool)
      requires Valid() && id in calls && calls[id].Computed?
      modifies this
      ensures Valid() && history == old(history) + [Finish(id, ttl, at, up)]
      ensures id in calls && calls[id] == Finished(old(calls[id].key), Plain(old(calls[id].c)))
    {
      RunOneMore(history, Finish(id, ttl, at, up));
      Execute(Finish(id, ttl, at, up));
    }

    /** After a miss: compute, then store; other calls go on during both. */
    method Complete(id: CallId, c: Computation, meanwhile: seq<Event>, later: seq<Event>, ttl: int, at: int, up: bool)
      requires Valid() && id in calls && calls[id].Missed?
      requires forall e | e in meanwhile + later :: !Of(e, id)
      modifies this
      ensures Valid() && id in calls && calls[id] == Finished(old(calls[id].key), Plain(c))
      ensures history == old(history) + (meanwhile + [Compute(id, c)] + later + [Finish(id, ttl, at, up)])
    {
      ExecuteOthers(meanwhile, id);
      RunFunction(id, c);
      ExecuteOthers(later, id);
      End(id, ttl, at, up);
    }

    /**
     One call of a cached function from start to end. Other calls go on while it computes and while
     it stores. It returns a freshly computed value if its lookup can reach one, and otherwise what
     the plain function gives.
     */
    method Call(id: CallId, key: Option<Key>, lookupUp: bool, c: Computation, meanwhile: seq<Event>,
                later: seq<Event>, storeUp: bool, ttl: int, before: int, after: int)
      returns (result: Outcome, hit: bool)
      requires Valid() && id !in calls
      requires forall e | e in meanwhile + later :: !Of(e, id)
      modifies this
      ensures Valid() && id in calls && calls[id] == Finished(key, result)
      ensures hit <==> key.Some? && lookupUp && exists v :: FreshlyComputed(old(history), key.value, v, before)
      ensures hit ==> result.Value? && FreshlyComputed(old(history), key.value, result.value, before)
      ensures !hit ==> result == Plain(c)
      ensures !hit && c.Returns? ==> result == Value(c.value)
      ensures !hit && c == ReturnsNone ==> result == NoneValue
      ensures !hit && c == Raises ==> result == Raised
      ensures history == old(history) + [Lookup(id, key, before, lookupUp)]
        + if hit then [] else meanwhile + [Compute(id, c)] + later + [Finish(id, ttl, after, storeUp)]
    {
      var found := Begin(id, key, before, lookupUp);
      if found.Some? {
        return Value(found.value), true;
      }
      Complete(id, c, meanwhile, later, ttl, after, storeUp);
      return Plain(c), false;
    }
  }
}
