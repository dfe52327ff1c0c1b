/**
 Overlapping transactions on the residents of one building, under READ COMMITTED. A transaction
 writes its row, its trigger's UPDATE counts what that statement's snapshot shows, and the counted
 number becomes visible when the transaction commits; the building's row lock orders the commits.
 */
module TriggerSnapshots {
  import opened Iteration

  type Id = string
  type Tx = nat

  datatype Change = Arrive(resident: Id) | Depart(resident: Id)

  datatype Pending = Pending(change: Change, counted: int)

  /** The committed rows and counter, and the transactions that have counted and not yet committed. */
  datatype State = State(rows: set<Id>, counter: int, open: map<Tx, Pending>)

  datatype Event = Count(tx: Tx, change: Change) | Commit(tx: Tx)

  function Applied(rows: set<Id>, c: Change): set<Id> {
    match c
    case Arrive(r) => rows + {r}
    case Depart(r) => rows - {r}
  }

  function Delta(c: Change): int { if c.Arrive? then 1 else -1 }

  /** An insert meets no row with its key and a delete finds its row; a row is changed by one at a time. */
  predicate Possible(s: State, c: Change) {
    && (c.Arrive? <==> c.resident !in s.rows)
    && forall tx | tx in s.open :: s.open[tx].change.resident != c.resident
  }

  function Step(s: State, e: Event): State {
    match e
    case Count(tx, change) =>
      if tx in s.open || !Possible(s, change) then s
      else s.(open := s.open[tx := Pending(change, |Applied(s.rows, change)|)])
    case Commit(tx) =>
      if tx in s.open then State(Applied(s.rows, s.open[tx].change), s.open[tx].counted, s.open - {tx}) else s
  }

  /** The state after the first n events, from committed rows that the counter counts. */
  function After(rows: set<Id>, h: seq<Event>, n: nat): State
    requires n <= |h|
  {
    Iterate(Step, State(rows, |rows|, map[]), h, n)
  }

  /** What an event adds to the committed rows: a commit adds or removes one. */
  function Gain(s: State, e: Event): int {
    if e.Commit? && e.tx in s.open then Delta(s.open[e.tx].change) else 0
  }

  ghost predicate Opens(rows: set<Id>, h: seq<Event>, b: nat, tx: Tx) {
    && b < |h| && h[b].Count? && h[b].tx == tx
    && tx !in After(rows, h, b).open && Possible(After(rows, h, b), h[b].change)
  }

  ghost predicate Commits(rows: set<Id>, h: seq<Event>, c: nat, tx: Tx) {
    c < |h| && h[c] == Commit(tx) && tx in After(rows, h, c).open
  }

  /** The transaction that counts at b and commits at c. */
  ghost predicate Spans(rows: set<Id>, h: seq<Event>, b: nat, c: nat, tx: Tx) {
    b < c && Opens(rows, h, b, tx) && Commits(rows, h, c, tx) && forall k | b < k < c :: h[k] != Commit(tx)
  }

  /** Arrivals less departures committed from event b on and before event c. */
  function NetCommitted(rows: set<Id>, h: seq<Event>, b: nat, c: nat): int
    requires b <= c <= |h|
  {
    Total(Step, State(rows, |rows|, map[]), h, Gain, b, c)
  }

  lemma NextState(rows: set<Id>, h: seq<Event>, n: nat)
    requires n < |h|
    ensures After(rows, h, n + 1) == Step(After(rows, h, n), h[n])
  {
  }

  // ---- what a pending change can rely on ----

  /** Every pending change is still possible, and no two are about the same resident. */
  ghost predicate Sound(s: State) {
    && (forall tx | tx in s.open :: s.open[tx].change.Arrive? <==> s.open[tx].change.resident !in s.rows)
    && forall tx, u | tx in s.open && u in s.open && tx != u ::
         s.open[tx].change.resident != s.open[u].change.resident
  }

  lemma StepSound(s: State, e: Event)
    requires Sound(s)
    ensures Sound(Step(s, e))
  {
  }

  lemma AlwaysSound(rows: set<Id>, h: seq<Event>, n: nat)
    requires n <= |h|
    ensures Sound(After(rows, h, n))
  {
    var sound := iset s | Sound(s);
    forall s, k | 0 <= k < n && s in sound ensures Step(s, h[k]) in sound {
      StepSound(s, h[k]);
    }
    Kept(Step, State(rows, |rows|, map[]), h, sound, 0, n);
  }

  lemma AppliedSize(rows: set<Id>, c: Change)
    requires c.Arrive? <==> c.resident !in rows
    ensures |Applied(rows, c)| == |rows| + Delta(c)
  {
  }

  lemma StepGains(s: State, e: Event)
    requires Sound(s)
    ensures |Step(s, e).rows| == |s.rows| + Gain(s, e)
  {
    if e.Commit? && e.tx in s.open { AppliedSize(s.rows, s.open[e.tx].change); }
  }

  lemma NetIsGrowth(rows: set<Id>, h: seq<Event>, b: nat, c: nat)
    requires b <= c <= |h|
    ensures |After(rows, h, c).rows| == |After(rows, h, b).rows| + NetCommitted(rows, h, b, c)
  {
    var size := (s: State) => |s.rows|;
    forall k | b <= k < c
      ensures size(Step(After(rows, h, k), h[k])) == size(After(rows, h, k)) + Gain(After(rows, h, k), h[k])
    {
      AlwaysSound(rows, h, k);
      StepGains(After(rows, h, k), h[k]);
    }
    Grows(Step, State(rows, |rows|, map[]), h, size, Gain, b, c);
  }

  lemma JustCounted(s: State, e: Event)
    requires e.Count? && e.tx !in s.open && Possible(s, e.change)
    ensures e.tx in Step(s, e).open
    ensures Step(s, e).open[e.tx] == Pending(e.change, |s.rows| + Delta(e.change))
  {
    AppliedSize(s.rows, e.change);
  }

  lemma PendingStays(s: State, e: Event, tx: Tx)
    requires tx in s.open && e != Commit(tx)
    ensures tx in Step(s, e).open && Step(s, e).open[tx] == s.open[tx]
  {
  }

  /** A transaction keeps the number it counted until it commits. */
  lemma CountedStays(rows: set<Id>, h: seq<Event>, b: nat, n: nat, tx: Tx, p: Pending)
    requires b <= n <= |h| && tx in After(rows, h, b).open && After(rows, h, b).open[tx] == p
    requires forall k | b <= k < n :: h[k] != Commit(tx)
    ensures tx in After(rows, h, n).open && After(rows, h, n).open[tx] == p
  {
    var waiting := iset s: State | tx in s.open && s.open[tx] == p;
    forall s, k | b <= k < n && s in waiting ensures Step(s, h[k]) in waiting {
      PendingStays(s, h[k], tx);
    }
    Kept(Step, State(rows, |rows|, map[]), h, waiting, b, n);
  }

  lemma CountedAtCommit(rows: set<Id>, h: seq<Event>, b: nat, c: nat, tx: Tx)
    requires Spans(rows, h, b, c, tx)
    ensures After(rows, h, c).open[tx] == Pending(h[b].change, |After(rows, h, b).rows| + Delta(h[b].change))
  {
    NextState(rows, h, b);
    JustCounted(After(rows, h, b), h[b]);
    CountedStays(rows, h, b + 1, c, tx, Pending(h[b].change, |After(rows, h, b).rows| + Delta(h[b].change)));
  }

  // ---- the counter ----

  /** Right after a commit the counter lags the rows by what others committed since the count. */
  lemma CounterAfterCommit(rows: set<Id>, h: seq<Event>, b: nat, c: nat, tx: Tx)
    requires Spans(rows, h, b, c, tx)
    ensures var s := After(rows, h, c + 1); s.counter == |s.rows| - NetCommitted(rows, h, b, c)
  {
    CountedAtCommit(rows, h, b, c, tx);
    NetIsGrowth(rows, h, b, c);
    AlwaysSound(rows, h, c);
    NextState(rows, h, c);
    AppliedSize(After(rows, h, c).rows, h[b].change);
  }

  ghost predicate NoCommits(rows: set<Id>, h: seq<Event>, c: nat, n: nat) {
    forall k: nat, tx | c <= k < n :: !Commits(rows, h, k, tx)
  }

  lemma QuietSince(rows: set<Id>, h: seq<Event>, c: nat, n: nat)
    requires c <= n <= |h| && NoCommits(rows, h, c, n)
    ensures After(rows, h, n).rows == After(rows, h, c).rows && After(rows, h, n).counter == After(rows, h, c).counter
  {
    var view := (s: State) => (s.rows, s.counter);
    forall k | c <= k < n
      ensures view(Step(After(rows, h, k), h[k])) == view(After(rows, h, k))
    {
      assert !Commits(rows, h, k, h[k].tx);
    }
    Unseen(Step, State(rows, |rows|, map[]), h, view, c, n);
  }

  lemma LagStays(rows: set<Id>, h: seq<Event>, c: nat, lag: int)
    requires c <= |h| && NoCommits(rows, h, c, |h|)
    requires After(rows, h, c).counter == |After(rows, h, c).rows| - lag
    ensures After(rows, h, |h|).counter == |After(rows, h, |h|).rows| - lag
  {
    QuietSince(rows, h, c, |h|);
  }

  /**
   Main result: however transactions overlap, the counter equals the rows if and only if as many
   arrivals as departures were committed between the count and the commit of the transaction that
   committed last; otherwise it is off by exactly the difference, until somebody counts again.
   */
  lemma CounterExactIff(rows: set<Id>, h: seq<Event>, b: nat, c: nat, tx: Tx)
    requires Spans(rows, h, b, c, tx) && NoCommits(rows, h, c + 1, |h|)
    ensures After(rows, h, |h|).counter == |After(rows, h, |h|).rows| - NetCommitted(rows, h, b, c)
    ensures After(rows, h, |h|).counter == |After(rows, h, |h|).rows| <==> NetCommitted(rows, h, b, c) == 0
  {
    CounterAfterCommit(rows, h, b, c, tx);
    LagStays(rows, h, c + 1, NetCommitted(rows, h, b, c));
  }

  function Both(): seq<Event> { [Count(0, Arrive("u")), Count(1, Arrive("v")), Commit(0), Commit(1)] }

  lemma BothCount()
    ensures After({}, Both(), 2) == State({}, 0, map[0 := Pending(Arrive("u"), 1), 1 := Pending(Arrive("v"), 1)])
  {
    assert Applied({}, Arrive("u")) == {"u"} && Applied({}, Arrive("v")) == {"v"};
    assert After({}, Both(), 1) == State({}, 0, map[0 := Pending(Arrive("u"), 1)]);
  }

  /** Two people who move in at once are counted as one. */
  lemma OverlappingArrivalsLoseOne()
    ensures After({}, Both(), 4).rows == {"u", "v"} && After({}, Both(), 4).counter == 1
  {
    BothCount();
    assert After({}, Both(), 3).rows == {"u"};
  }
}
