/**
 The distributed scheduler lock: acquiring is two SQL statements, an insert-if-absent and a
 guarded UPDATE, and the statements of any number of workers interleave while the clock advances.
 */
module SchedulerLock {
  import opened Options

  datatype Row = Row(lockedUntil: Option<int>, lastRun: Option<int>)
  type Rows = map<string, Row>

  datatype Action =
    | EnsureRow(task: string)
    | TryLock(task: string, ttl: int)
    | Release(task: string)

  /** One statement of one worker, at the database's time. */
  datatype Event = Event(worker: nat, now: int, action: Action)

  /** The new rows, and whether the statement reported one row affected. */
  function Step(rows: Rows, e: Event): (Rows, bool) {
    match e.action
    case EnsureRow(task) =>
      if task in rows then (rows, false) else (rows[task := Row(None, None)], true)
    case TryLock(task, ttl) =>
      if task in rows && (rows[task].lockedUntil == None || rows[task].lockedUntil.value < e.now) then
        (rows[task := Row(Some(e.now + ttl), Some(e.now))], true)
      else (rows, false)
    case Release(task) =>
      if task in rows then (rows[task := rows[task].(lockedUntil := None)], true) else (rows, false)
  }

  function Run(h: seq<Event>): Rows {
    if h == [] then map[] else Step(Run(h[..|h| - 1]), h[|h| - 1]).0
  }

  /** The i-th event acquired the lock of the task. */
  predicate Granted(h: seq<Event>, task: string, i: nat) {
    i < |h| && h[i].action.TryLock? && h[i].action.task == task && Step(Run(h[..i]), h[i]).1
  }

  predicate LastGrant(h: seq<Event>, task: string, i: nat) {
    Granted(h, task, i) && forall j | i < j < |h| :: !Granted(h, task, j)
  }

  predicate ReleasedBetween(h: seq<Event>, task: string, i: nat, j: nat) {
    exists k | i < k < j && k < |h| :: h[k].action == Release(task)
  }

  ghost predicate ClockAdvances(h: seq<Event>) {
    forall i, j | 0 <= i <= j < |h| :: h[i].now <= h[j].now
  }

  /** Every TryLock directly follows, among its worker's statements, that worker's EnsureRow. */
  ghost predicate FollowsProtocol(h: seq<Event>) {
    forall i | 0 <= i < |h| && h[i].action.TryLock? :: exists j | 0 <= j < i ::
      && h[j].worker == h[i].worker && h[j].action == EnsureRow(h[i].action.task)
      && forall k | j < k < i :: h[k].worker != h[i].worker
  }

  lemma GrantedInPrefix(h: seq<Event>, task: string, n: nat)
    requires n <= |h|
    ensures forall i: nat | i < n :: Granted(h[..n], task, i) <==> Granted(h, task, i)
  {
    forall i: nat | i < n ensures h[..n][..i] == h[..i] {}
  }

  // ---- the row of a task ----

  lemma {:induction false} RowStays(h: seq<Event>, task: string, n: nat)
    requires n <= |h| && task in Run(h[..n])
    ensures task in Run(h)
    decreases |h|
  {
    if n < |h| {
      assert h[..|h| - 1][..n] == h[..n];
      RowStays(h[..|h| - 1], task, n);
    } else {
      assert h[..n] == h;
    }
  }

  /** A worker's UPDATE always finds its row, whatever the others did in between. */
  lemma RowExistsAtTryLock(h: seq<Event>, i: nat)
    requires FollowsProtocol(h) && i < |h| && h[i].action.TryLock?
    ensures h[i].action.task in Run(h[..i])
  {
    var task := h[i].action.task;
    var j :| 0 <= j < i && h[j].action == EnsureRow(task);
    assert h[..j + 1][..j] == h[..j];
    assert task in Run(h[..j + 1]);
    assert h[..i][..j + 1] == h[..j + 1];
    RowStays(h[..i], task, j + 1);
  }

  /** The row says what the i-th event, the latest acquisition, left, and any release after it. */
  ghost predicate Records(h: seq<Event>, task: string, row: Row, i: nat) {
    && LastGrant(h, task, i) && row.lastRun == Some(h[i].now)
    && row.lockedUntil == if ReleasedBetween(h, task, i, |h|) then None else Some(h[i].now + h[i].action.ttl)
  }

  ghost predicate NeverGranted(h: seq<Event>, task: string) {
    forall i: nat :: !Granted(h, task, i)
  }

  /** What a task's row records of the whole history. */
  ghost predicate RowRecords(h: seq<Event>, task: string, row: Row) {
    || (row == Row(None, None) && NeverGranted(h, task))
    || (exists i: nat :: Records(h, task, row, i))
  }

  /** What one statement does to the row of one task. */
  lemma StepOnRow(rows: Rows, e: Event, task: string)
    requires task in rows
    ensures var after := Step(rows, e).0;
      && task in after
      && (if e.action.TryLock? && e.action.task == task && Step(rows, e).1 then
            after[task] == Row(Some(e.now + e.action.ttl), Some(e.now))
          else if e.action == Release(task) then after[task] == rows[task].(lockedUntil := None)
          else after[task] == rows[task])
  {
  }

  lemma RecordsStep(h: seq<Event>, task: string, row: Row, after: Row, i: nat)
    requires h != [] && !Granted(h, task, |h| - 1) && Records(h[..|h| - 1], task, row, i)
    requires after == if h[|h| - 1].action == Release(task) then row.(lockedUntil := None) else row
    ensures Records(h, task, after, i)
  {
    GrantedInPrefix(h, task, |h| - 1);
    ReleaseExtends(h, task, i);
  }

  lemma {:induction false} RowRecordsHistory(h: seq<Event>, task: string)
    ensures task in Run(h) ==> RowRecords(h, task, Run(h)[task])
    ensures task !in Run(h) ==> NeverGranted(h, task)
    decreases |h|
  {
    if h != [] {
      var n := |h| - 1;
      var past := Run(h[..n]);
      RowRecordsHistory(h[..n], task);
      GrantedInPrefix(h, task, n);
      if task in past {
        StepOnRow(past, h[n], task);
        var row, after := past[task], Run(h)[task];
        if Granted(h, task, n) {
          assert Records(h, task, after, n);
        } else if row == Row(None, None) && NeverGranted(h[..n], task) {
        } else {
          var i: nat :| Records(h[..n], task, row, i);
          RecordsStep(h, task, row, after, i);
        }
      }
    }
  }

  lemma ReleaseExtends(h: seq<Event>, task: string, i: nat)
    requires h != []
    ensures ReleasedBetween(h, task, i, |h|)
       <==> ReleasedBetween(h[..|h| - 1], task, i, |h| - 1) || (i < |h| - 1 && h[|h| - 1].action == Release(task))
  {
    var n := |h| - 1;
    if ReleasedBetween(h[..n], task, i, n) {
      var k :| i < k < n && h[..n][k].action == Release(task);
      assert h[k].action == Release(task);
    }
    if ReleasedBetween(h, task, i, |h|) {
      var k :| i < k < |h| && h[k].action == Release(task);
      assert k < n ==> h[..n][k].action == Release(task);
    }
  }

  // ---- the lock ----

  /**
   Main result: an attempt on an existing row succeeds exactly when every earlier acquisition that
   is still the latest one has been released or is more than its TTL in the past.
   */
  lemma GrantedIff(h: seq<Event>, task: string, i: nat)
    requires i < |h| && h[i].action.TryLock? && h[i].action.task == task && task in Run(h[..i])
    ensures Granted(h, task, i) <==> forall j: nat | LastGrant(h[..i], task, j) ::
      ReleasedBetween(h, task, j, i) || h[j].now + h[j].action.ttl < h[i].now
  {
    var past := h[..i];
    RowRecordsHistory(past, task);
    forall j: nat | LastGrant(past, task, j)
      ensures ReleasedBetween(h, task, j, i) <==> ReleasedBetween(past, task, j, i)
    {
      if ReleasedBetween(h, task, j, i) {
        var k :| j < k < i && k < |h| && h[k].action == Release(task);
        assert past[k].action == Release(task);
      }
      if ReleasedBetween(past, task, j, i) {
        var k :| j < k < i && k < |past| && past[k].action == Release(task);
        assert h[k].action == Release(task);
      }
    }
    assert forall j: nat, k: nat | LastGrant(past, task, j) && LastGrant(past, task, k) :: j == k;
  }

  /** The latest acquisition before position n, given that there is one. */
  lemma {:induction false} GrantBefore(h: seq<Event>, task: string, n: nat, i: nat) returns (k: nat)
    requires i < n <= |h| && Granted(h, task, i)
    ensures i <= k < n && Granted(h, task, k) && forall j | k < j < n :: !Granted(h, task, j)
    decreases n
  {
    if Granted(h, task, n - 1) {
      k := n - 1;
    } else {
      k := GrantBefore(h, task, n - 1, i);
    }
  }

  /**
   Main result: however workers interleave, two acquisitions of one task with no release of it
   between them are strictly more than the first one's TTL apart.
   */
  lemma {:induction false} MutualExclusion(h: seq<Event>, task: string, i: nat, j: nat)
    requires ClockAdvances(h) && i < j
    requires Granted(h, task, i) && Granted(h, task, j) && !ReleasedBetween(h, task, i, j)
    ensures h[j].now > h[i].now + h[i].action.ttl
    decreases j
  {
    var k := GrantBefore(h, task, j, i);
    GrantedInPrefix(h, task, j);
    assert LastGrant(h[..j], task, k);
    GrantedIff(h, task, j);
    assert !ReleasedBetween(h, task, k, j);
    assert h[k].now + h[k].action.ttl < h[j].now;
    if k != i {
      MutualExclusion(h, task, i, k);
    }
  }

  /** One row per task, kept from its creation, whose last_run_at is the latest acquisition. */
  lemma LastRunIsLatestGrant(h: seq<Event>, task: string)
    requires task in Run(h)
    ensures forall i: nat | LastGrant(h, task, i) :: Run(h)[task].lastRun == Some(h[i].now)
    ensures Run(h)[task].lastRun == None <==> forall i: nat :: !Granted(h, task, i)
  {
    RowRecordsHistory(h, task);
    assert forall j: nat, k: nat | LastGrant(h, task, j) && LastGrant(h, task, k) :: j == k;
  }

  // ---- two holders ----

  /** The k-th event is its worker's first statement since that worker acquired the task. */
  ghost predicate OwnGrant(h: seq<Event>, task: string, g: nat, k: nat) {
    && g < k < |h| && Granted(h, task, g) && h[g].worker == h[k].worker
    && forall m | g < m < k :: h[m].worker != h[k].worker
  }

  /** Workers do as _try_run_task does: what one releases, it has just acquired itself. */
  ghost predicate ReleasesOwn(h: seq<Event>, task: string) {
    forall k: nat | k < |h| && h[k].action == Release(task) :: exists g: nat :: OwnGrant(h, task, g, k)
  }

  /** They also release before the lock they acquired expires. */
  ghost predicate ReleasesInTime(h: seq<Event>, task: string) {
    forall g: nat, k: nat | OwnGrant(h, task, g, k) && h[k].action == Release(task) ::
      h[k].now <= h[g].now + h[g].action.ttl
  }

  ghost predicate OwnReleaseBetween(h: seq<Event>, task: string, i: nat, j: nat)
    requires i < |h|
  {
    exists k: nat :: i < k < j && k < |h| && h[k].action == Release(task) && h[k].worker == h[i].worker
  }

  /** The task is acquired again while an earlier holder has not released it. */
  ghost predicate Overlap(h: seq<Event>, task: string, i: nat, j: nat) {
    i < j && Granted(h, task, i) && Granted(h, task, j) && !OwnReleaseBetween(h, task, i, j)
  }

  /** A holder still has not released the task after its TTL, and somebody tries to acquire it. */
  ghost predicate Overrun(h: seq<Event>, task: string, i: nat, t: nat) {
    && i < t < |h| && Granted(h, task, i) && h[t].action.TryLock? && h[t].action.task == task
    && !OwnReleaseBetween(h, task, i, t) && h[t].now > h[i].now + h[i].action.ttl
  }

  /** A release by somebody else than the earlier holder comes with an overlap further back. */
  lemma ForeignRelease(h: seq<Event>, task: string, i: nat, j: nat, k: nat) returns (a: nat, b: nat)
    requires ReleasesOwn(h, task) && Overlap(h, task, i, j)
    requires i < k < j && h[k].action == Release(task)
    ensures Overlap(h, task, a, b) && b < j
  {
    var g: nat :| OwnGrant(h, task, g, k);
    if g < i {
      a, b := g, i;
    } else {
      a, b := i, g;
    }
  }

  /** The first overlap of a run is with a holder whose TTL has passed. */
  lemma {:induction false} SomeOverlapIsLate(h: seq<Event>, task: string, i: nat, j: nat) returns (a: nat, b: nat)
    requires ClockAdvances(h) && ReleasesOwn(h, task) && Overlap(h, task, i, j)
    ensures Overlap(h, task, a, b) && h[b].now > h[a].now + h[a].action.ttl
    decreases j
  {
    if ReleasedBetween(h, task, i, j) {
      var k :| i < k < j && k < |h| && h[k].action == Release(task);
      a, b := ForeignRelease(h, task, i, j, k);
      a, b := SomeOverlapIsLate(h, task, a, b);
    } else {
      MutualExclusion(h, task, i, j);
      a, b := i, j;
    }
  }

  /** When a holder has overrun its TTL, an attempt succeeds or somebody else already holds the task. */
  lemma OverrunOverlaps(h: seq<Event>, task: string, i: nat, t: nat) returns (j: nat)
    requires ClockAdvances(h) && Overrun(h, task, i, t)
    ensures Overlap(h, task, i, j)
  {
    j := GrantBefore(h, task, t, i);
    if j == i {
      GrantedInPrefix(h, task, t);
      assert LastGrant(h[..t], task, i);
      TaskHasRow(h, task, i, t);
      GrantedIff(h, task, t);
      assert forall k: nat | LastGrant(h[..t], task, k) :: k == i;
      j := t;
    }
  }

  lemma TaskHasRow(h: seq<Event>, task: string, i: nat, t: nat)
    requires Granted(h, task, i) && i < t <= |h|
    ensures task in Run(h[..t])
  {
    assert h[..i + 1][..i] == h[..i];
    assert task in Run(h[..i + 1]);
    assert h[..t][..i + 1] == h[..i + 1];
    RowStays(h[..t], task, i + 1);
  }

  /**
   Main result: for workers that release only what they acquired, a task is ever held twice if and
   only if some holder overran its TTL while another worker was trying for the task.
   */
  lemma HeldTwiceIffOverrun(h: seq<Event>, task: string)
    requires ClockAdvances(h) && ReleasesOwn(h, task)
    ensures (exists i: nat, j: nat :: Overlap(h, task, i, j)) <==> (exists i: nat, t: nat :: Overrun(h, task, i, t))
  {
    if i: nat, j: nat :| Overlap(h, task, i, j) {
      var a, b := SomeOverlapIsLate(h, task, i, j);
      assert Overrun(h, task, a, b);
    }
    if i: nat, t: nat :| Overrun(h, task, i, t) {
      var j := OverrunOverlaps(h, task, i, t);
      assert Overlap(h, task, i, j);
    }
  }

  /**
   Main result: if besides every release that comes at all comes in time, then within the TTL of an
   acquisition nobody else acquires the task before its holder has released it. A worker that
   stopped without releasing is covered as well.
   */
  lemma {:induction false} NoTwoHolders(h: seq<Event>, task: string, i: nat, j: nat)
    requires ClockAdvances(h) && ReleasesOwn(h, task) && ReleasesInTime(h, task)
    requires i < j && Granted(h, task, i) && Granted(h, task, j) && h[j].now <= h[i].now + h[i].action.ttl
    ensures OwnReleaseBetween(h, task, i, j)
    decreases j
  {
    if !OwnReleaseBetween(h, task, i, j) {
      assert ReleasedBetween(h, task, i, j) by {
        if !ReleasedBetween(h, task, i, j) { MutualExclusion(h, task, i, j); }
      }
      var k :| i < k < j && k < |h| && h[k].action == Release(task);
      var g: nat :| OwnGrant(h, task, g, k);
      if g < i { NoTwoHolders(h, task, g, i); } else { NoTwoHolders(h, task, i, g); }
      assert false;
    }
  }

  /** A history in which worker 1 overruns its TTL and its late release lets worker 3 in beside worker 2. */
  function LateRelease(): seq<Event> {
    [Event(1, 0, EnsureRow("t")), Event(1, 0, TryLock("t", 60)),
     Event(2, 61, EnsureRow("t")), Event(2, 61, TryLock("t", 60)), Event(1, 62, Release("t")),
     Event(3, 63, EnsureRow("t")), Event(3, 63, TryLock("t", 60))]
  }

  lemma RunStep(h: seq<Event>, n: nat)
    requires n < |h|
    ensures Run(h[..n + 1]) == Step(Run(h[..n]), h[n]).0
  {
    assert h[..n + 1][..n] == h[..n];
  }

  lemma LateReleaseRows()
    ensures Run(LateRelease()[..1]) == map["t" := Row(None, None)]
    ensures Run(LateRelease()[..3]) == map["t" := Row(Some(60), Some(0))]
    ensures Run(LateRelease()[..6]) == map["t" := Row(None, Some(61))]
  {
    var h := LateRelease();
    assert h[..0] == [];
    RunStep(h, 0);
    assert Run(h[..1]) == map["t" := Row(None, None)];
    RunStep(h, 1);
    assert Run(h[..2]) == map["t" := Row(Some(60), Some(0))];
    RunStep(h, 2);
    RunStep(h, 3);
    assert Run(h[..4]) == map["t" := Row(Some(121), Some(61))];
    RunStep(h, 4);
    RunStep(h, 5);
  }

  lemma LateReleaseFollowsProtocol()
    ensures ClockAdvances(LateRelease()) && FollowsProtocol(LateRelease())
  {
    var h := LateRelease();
    assert h[0].action == h[2].action == h[5].action == EnsureRow("t");
  }

  lemma LateReleaseGrants()
    ensures Granted(LateRelease(), "t", 1) && Granted(LateRelease(), "t", 3) && Granted(LateRelease(), "t", 6)
  {
    LateReleaseRows();
  }

  lemma LateReleaseIsOwn()
    ensures ReleasesOwn(LateRelease(), "t")
  {
    LateReleaseGrants();
    assert OwnGrant(LateRelease(), "t", 1, 4);
  }

  lemma LateReleaseOverlaps()
    ensures Overrun(LateRelease(), "t", 1, 3) && Overlap(LateRelease(), "t", 3, 6)
  {
    LateReleaseGrants();
    assert !OwnReleaseBetween(LateRelease(), "t", 1, 3);
    assert !OwnReleaseBetween(LateRelease(), "t", 3, 6);
  }

  /**
   All do as _try_run_task does, and yet worker 3, which looked at last_run_at before worker 2's
   acquisition, acquires the task while worker 2 is at it.
   */
  lemma OverrunLetsTwoIn()
    ensures ClockAdvances(LateRelease()) && FollowsProtocol(LateRelease()) && ReleasesOwn(LateRelease(), "t")
    ensures Overrun(LateRelease(), "t", 1, 3) && Overlap(LateRelease(), "t", 3, 6)
    ensures LateRelease()[6].now <= LateRelease()[3].now + LateRelease()[3].action.ttl
  {
    LateReleaseFollowsProtocol();
    LateReleaseIsOwn();
    LateReleaseOverlaps();
  }

  // ---- the table ----

  lemma TwoStatements(h: seq<Event>, insert: Event, update: Event)
    requires insert.action.EnsureRow? && update.action.TryLock? && insert.action.task == update.action.task
    ensures var (rows, acquired) := Step(Step(Run(h), insert).0, update);
      Run(h + [insert, update]) == rows && (acquired <==> Granted(h + [insert, update], update.action.task, |h| + 1))
  {
    var one := h + [insert];
    var two := h + [insert, update];
    assert one[..|h|] == h && two[..|h| + 1] == one;
  }

  class SchedulerLocks {
    var rows: Rows

    constructor ()
      ensures rows == Run([])
    {
      rows := map[];
    }

    /** INSERT INTO scheduler_locks ... ON CONFLICT DO NOTHING */
    method InsertIfAbsent(task: string)
      modifies this
      ensures forall e: Event | e.action == EnsureRow(task) :: rows == Step(old(rows), e).0
    {
      if task !in rows {
        rows := rows[task := Row(None, None)];
      }
    }

    /** UPDATE ... WHERE task_name = task AND (locked_until IS NULL OR locked_until < NOW()) */
    method UpdateIfFree(task: string, ttl: int, now: int) returns (updated: bool)
      modifies this
      ensures forall e: Event | e.now == now && e.action == TryLock(task, ttl) ::
        (rows, updated) == Step(old(rows), e)
    {
      updated := task in rows && (rows[task].lockedUntil == None || rows[task].lockedUntil.value < now);
      if updated {
        rows := rows[task := Row(Some(now + ttl), Some(now))];
      }
    }

    /** Without interference, acquiring is the two statements and succeeds when the lock is free. */
    method AcquireSchedulerLock(worker: nat, task: string, ttl: int, now: int, ghost h: seq<Event>)
      returns (acquired: bool)
      requires rows == Run(h)
      modifies this
      ensures var h' := h + [Event(worker, now, EnsureRow(task)), Event(worker, now, TryLock(task, ttl))];
        rows == Run(h') && (acquired <==> Granted(h', task, |h| + 1))
    {
      ghost var insert, update := Event(worker, now, EnsureRow(task)), Event(worker, now, TryLock(task, ttl));
      InsertIfAbsent(task);
      assert rows == Step(Run(h), insert).0;
      acquired := UpdateIfFree(task, ttl, now);
      assert (rows, acquired) == Step(Step(Run(h), insert).0, update);
      TwoStatements(h, insert, update);
    }

    method ReleaseSchedulerLock(task: string)
      modifies this
      ensures forall e: Event | e.action == Release(task) :: rows == Step(old(rows), e).0
    {
      if task in rows {
        rows := rows[task := rows[task].(lockedUntil := None)];
      }
    }
  }
}
