/**
 What every run of joins, leaves and ordinary statements keeps about participation: one row per
 user and offer, and a participant counter that stays within the units joined and the capacity.
 */
module Participation {
  import opened MarketplaceTables
  import opened Marketplace
  import opened Numbers

  ghost predicate OneRowPerUser(participants: map<Id, Participant>) {
    forall p, q | p in participants && q in participants
                  && participants[p].offer == participants[q].offer && participants[p].user == participants[q].user
      :: p == q
  }

  /** The unique and foreign-key constraints, and the positive unit counts the API admits. */
  ghost predicate WellFormed(db: Db) {
    && OneRowPerUser(db.participants)
    && (forall p | p in db.participants :: db.participants[p].offer in db.offers && db.participants[p].units >= 1)
  }

  ghost function Drift(db: Db, o: Id): int
    requires o in db.offers
  {
    SumUnits(db.participants, o) - db.offers[o].current
  }

  ghost predicate Bounded(db: Db) {
    forall o | o in db.offers :: 0 <= db.offers[o].current <= SumUnits(db.participants, o)
  }

  predicate UnitsPositive(e: Event) {
    match e
    case Join(_, _, _, units) => units >= 1
    case JoinAtomic(_, _, _, units) => units >= 1
    case _ => true
  }

  /** A request to leave an offer by somebody who is not in it. */
  predicate Stray(db: Db, e: Event, o: Id) {
    e.Leave? && e.offer == o && Rows(db.participants, e.user, o) == {}
  }

  ghost function Strays(db: Db, events: seq<Event>, o: Id): nat
    decreases |events|
  {
    if events == [] then 0
    else
      var init, last := events[..|events| - 1], events[|events| - 1];
      Strays(db, init, o) + if Stray(Run(db, init), last, o) then 1 else 0
  }

  // ---- effects on offers and participants ----

  lemma SetCounterEffect(db: Db, o: Id, n: int)
    requires o in db.offers
    ensures SetCounter(db, o, n).participants == db.participants
    ensures SetCounter(db, o, n).offers == db.offers[o := db.offers[o].(current := n)]
  {
    assert After(db.offers, CounterUpdate(db, o, n)) == db.offers[o := db.offers[o].(current := n)];
  }

  lemma JoinEffect(db: Db, pid: Id, user: Id, o: Id, units: int)
    requires o in db.offers
    ensures Joined(db, pid, user, o, units).participants == db.participants[pid := Participant(o, user, units)]
    ensures Joined(db, pid, user, o, units).offers
         == db.offers[o := db.offers[o].(current := db.offers[o].current + units)]
  {
    SetCounterEffect(AddParticipant(db, pid, user, o, units), o, db.offers[o].current + units);
  }

  lemma LeaveEffect(db: Db, user: Id, o: Id)
    ensures Left(db, user, o).participants == db.participants - Rows(db.participants, user, o)
    ensures Left(db, user, o).offers == if o !in db.offers then db.offers else
      db.offers[o := db.offers[o].(current :=
        Max(0, db.offers[o].current - UnitsHeld(db.participants, user, o)))]
  {
    if o in db.offers {
      SetCounterEffect(db.(participants := db.participants - Rows(db.participants, user, o)), o,
        Max(0, db.offers[o].current - UnitsHeld(db.participants, user, o)));
    }
  }

  /** The rows an offer statement leaves: kept offers keep their counter, new ones start at zero. */
  lemma OfferStatementEffect(db: Db, s: Statement<OfferColumns>, o: Id)
    requires OffersAccepted(db, OfferRows(db.offers, s))
    requires o in After(db.offers, OfferRows(db.offers, s))
    ensures o in db.offers ==> After(db.offers, OfferRows(db.offers, s))[o].current == db.offers[o].current
    ensures o !in db.offers ==> After(db.offers, OfferRows(db.offers, s))[o].current == 0
    ensures s.Delete? ==> o !in s.ids
  {
  }

  // ---- one step ----

  lemma JoinedWellFormed(db: Db, pid: Id, user: Id, o: Id, units: int)
    requires WellFormed(db) && o in db.offers && units >= 1
    requires Rows(db.participants, user, o) == {}
    ensures WellFormed(Joined(db, pid, user, o, units))
  {
    JoinEffect(db, pid, user, o, units);
    assert forall p | p in db.participants && db.participants[p].offer == o && db.participants[p].user == user
      :: p in Rows(db.participants, user, o);
  }

  lemma JoinedDrift(db: Db, pid: Id, user: Id, o: Id, units: int, q: Id)
    requires o in db.offers && q in db.offers && pid !in db.participants
    ensures q in Joined(db, pid, user, o, units).offers
    ensures Drift(Joined(db, pid, user, o, units), q) == Drift(db, q)
    ensures Joined(db, pid, user, o, units).offers[q].current == db.offers[q].current + if q == o then units else 0
  {
    JoinEffect(db, pid, user, o, units);
    SumInsert(db.participants, pid, Participant(o, user, units), q);
  }

  lemma JoinedKeeps(db: Db, pid: Id, user: Id, o: Id, units: int)
    requires WellFormed(db) && Bounded(db) && o in db.offers && units >= 1
    requires pid !in db.participants && Rows(db.participants, user, o) == {}
    ensures WellFormed(Joined(db, pid, user, o, units)) && Bounded(Joined(db, pid, user, o, units))
    ensures Joined(db, pid, user, o, units).offers.Keys == db.offers.Keys
    ensures forall q | q in db.offers :: Drift(Joined(db, pid, user, o, units), q) == Drift(db, q)
  {
    JoinedWellFormed(db, pid, user, o, units);
    var after := Joined(db, pid, user, o, units);
    assert after.offers.Keys == db.offers.Keys by { JoinEffect(db, pid, user, o, units); }
    forall q | q in db.offers
      ensures Drift(after, q) == Drift(db, q) && after.offers[q].current >= 0
    {
      JoinedDrift(db, pid, user, o, units, q);
    }
  }

  lemma LeaveRemoves(db: Db, user: Id, o: Id, q: Id)
    requires WellFormed(db)
    ensures SumUnits(Left(db, user, o).participants, q)
         == SumUnits(db.participants, q)
            - if q == o && Rows(db.participants, user, o) != {} then UnitsHeld(db.participants, user, o) else 0
  {
    LeaveEffect(db, user, o);
    var rows := Rows(db.participants, user, o);
    if rows == {} {
      assert db.participants - rows == db.participants;
    } else {
      var p :| p in rows && UnitsHeld(db.participants, user, o) == db.participants[p].units;
      assert rows == {p};
      SumRemove(db.participants, p, q);
    }
  }

  lemma LeaveKeeps(db: Db, user: Id, o: Id)
    requires WellFormed(db) && Bounded(db)
    ensures WellFormed(Left(db, user, o)) && Bounded(Left(db, user, o))
    ensures Left(db, user, o).offers.Keys == db.offers.Keys
    ensures forall q | q in db.offers ::
      Drift(Left(db, user, o), q) <= Drift(db, q) + if Stray(db, Leave(user, o), q) then 1 else 0
  {
    var after := Left(db, user, o);
    LeaveEffect(db, user, o);
    forall q | q in db.offers
      ensures q in after.offers
      ensures 0 <= after.offers[q].current <= SumUnits(after.participants, q)
      ensures Drift(after, q) <= Drift(db, q) + if Stray(db, Leave(user, o), q) then 1 else 0
    {
      LeaveRemoves(db, user, o, q);
      SumNonNegative(after.participants, q);
    }
  }

  lemma OfferStatementKeeps(db: Db, s: Statement<OfferColumns>)
    requires WellFormed(db) && Bounded(db)
    requires OffersAccepted(db, OfferRows(db.offers, s))
    ensures var after := Step(db, OfferStatement(s)).0;
      && WellFormed(after) && Bounded(after)
      && forall q | q in after.offers :: Drift(after, q) == if q in db.offers then Drift(db, q) else 0
  {
    var rows := OfferRows(db.offers, s);
    var after := Step(db, OfferStatement(s)).0;
    assert after.offers == After(db.offers, rows);
    assert after.participants == Cascade(db, rows).participants;
    forall q | q in after.offers
      ensures Drift(after, q) == if q in db.offers then Drift(db, q) else 0
      ensures 0 <= after.offers[q].current <= SumUnits(after.participants, q)
    {
      OfferStatementEffect(db, s, q);
      if s.Delete? {
        SumDropOthers(db.participants, (set p | p in db.participants && db.participants[p].offer in s.ids), q);
      }
      if q !in db.offers { SumOfNone(db.participants, q); }
    }
  }

  lemma StepKeeps(db: Db, e: Event)
    requires WellFormed(db) && Bounded(db) && UnitsPositive(e)
    ensures WellFormed(Step(db, e).0) && Bounded(Step(db, e).0)
    ensures forall q | q in Step(db, e).0.offers ::
      Drift(Step(db, e).0, q) <= (if q in db.offers then Drift(db, q) else 0) + if Stray(db, e, q) then 1 else 0
  {
    match e
    case ResidentStatement(s) =>
    case OfferStatement(s) =>
      if OffersAccepted(db, OfferRows(db.offers, s)) { OfferStatementKeeps(db, s); }
    case Join(pid, user, o, units) =>
      if Step(db, e).1 == Done { JoinedKeeps(db, pid, user, o, units); }
    case JoinAtomic(pid, user, o, units) =>
      if Step(db, e).1 == Done { JoinedKeeps(db, pid, user, o, units); }
    case Leave(user, o) =>
      LeaveKeeps(db, user, o);
  }

  // ---- every run ----

  /**
   Main result: whatever is interleaved, each user has at most one row per offer, the counter is
   never negative nor above the units joined, and it falls short of them by no more than it did
   at the start plus one for each stray leave.
   */
  lemma {:induction false} ParticipationAfterEveryRun(db: Db, events: seq<Event>)
    requires WellFormed(db) && Bounded(db)
    requires forall e | e in events :: UnitsPositive(e)
    ensures WellFormed(Run(db, events)) && Bounded(Run(db, events))
    ensures forall o | o in Run(db, events).offers ::
      0 <= Drift(Run(db, events), o) <= (if o in db.offers then Drift(db, o) else 0) + Strays(db, events, o)
    decreases |events|
  {
    if events != [] {
      var init, last := events[..|events| - 1], events[|events| - 1];
      ParticipationAfterEveryRun(db, init);
      StepKeeps(Run(db, init), last);
      forall o | o in Run(db, events).offers
        ensures 0 <= Drift(Run(db, events), o)
        ensures Drift(Run(db, events), o) <= (if o in db.offers then Drift(db, o) else 0) + Strays(db, events, o)
      {
      }
    }
  }

  /** From exact counters, a run in which only participants leave ends with exact counters. */
  lemma CounterExactWithoutStrays(db: Db, events: seq<Event>, o: Id)
    requires WellFormed(db) && Bounded(db)
    requires forall e | e in events :: UnitsPositive(e)
    requires o in db.offers ==> Drift(db, o) == 0
    requires Strays(db, events, o) == 0 && o in Run(db, events).offers
    ensures Run(db, events).offers[o].current == SumUnits(Run(db, events).participants, o)
  {
    ParticipationAfterEveryRun(db, events);
  }

  /** A leave keeps an exact counter exact just when the user is in the offer or nobody is. */
  lemma LeaveKeepsExactIff(db: Db, user: Id, o: Id)
    requires WellFormed(db) && Bounded(db) && o in db.offers && Drift(db, o) == 0
    ensures o in Left(db, user, o).offers
    ensures Drift(Left(db, user, o), o) == 0
       <==> (Rows(db.participants, user, o) != {} || SumUnits(db.participants, o) == 0)
  {
    LeaveEffect(db, user, o);
    LeaveRemoves(db, user, o, o);
    SumNonNegative(Left(db, user, o).participants, o);
  }

  // ---- undo and refusal ----

  lemma OnlyRow(m: map<Id, Participant>, pid: Id, user: Id, o: Id, units: int)
    requires pid !in m && Rows(m, user, o) == {}
    ensures var joined := m[pid := Participant(o, user, units)];
      && Rows(joined, user, o) == {pid} && UnitsHeld(joined, user, o) == units
      && joined - Rows(joined, user, o) == m
  {
    var joined := m[pid := Participant(o, user, units)];
    assert forall p | p in m && m[p].offer == o && m[p].user == user :: p in Rows(m, user, o);
    assert Rows(joined, user, o) == {pid};
    assert joined - {pid} == m;
  }

  lemma LeaveUndoesJoinRows(db: Db, pid: Id, user: Id, o: Id, units: int)
    requires Bounded(db) && units >= 1 && o in db.offers
    requires pid !in db.participants && Rows(db.participants, user, o) == {}
    ensures Left(Joined(db, pid, user, o, units), user, o).participants == db.participants
    ensures Left(Joined(db, pid, user, o, units), user, o).offers == db.offers
  {
    var mid := Joined(db, pid, user, o, units);
    JoinEffect(db, pid, user, o, units);
    OnlyRow(db.participants, pid, user, o, units);
    LeaveEffect(mid, user, o);
  }

  lemma SameResidents(db: Db, e: Event)
    requires e.Join? || e.Leave?
    ensures Step(db, e).0.residents == db.residents
  {
  }

  /** Leaving right after joining restores every offer, participant, resident and building. */
  lemma LeaveUndoesJoin(db: Db, pid: Id, user: Id, o: Id, units: int)
    requires Bounded(db) && CountersExact(db) && units >= 1
    requires Step(db, Join(pid, user, o, units)).1 == Done
    ensures Step(Step(db, Join(pid, user, o, units)).0, Leave(user, o)) == (db, Done)
  {
    var join, leave := Join(pid, user, o, units), Leave(user, o);
    var mid := Step(db, join).0;
    var after := Step(mid, leave).0;
    LeaveUndoesJoinRows(db, pid, user, o, units);
    StepKeepsCountersExact(db, join);
    StepKeepsCountersExact(mid, leave);
    StepKeepsBuildings(db, join);
    StepKeepsBuildings(mid, leave);
    SameResidents(db, join);
    SameResidents(mid, leave);
    SameRowsSameCounters(db, after);
  }

  /** Exact counters are determined by the rows they count. */
  lemma SameRowsSameCounters(db: Db, other: Db)
    requires CountersExact(db) && CountersExact(other)
    requires other.buildings.Keys == db.buildings.Keys
    requires other.residents == db.residents && other.offers == db.offers
    ensures other.buildings == db.buildings
  {
  }

  /** The rows of a table after a statement: added, overwritten where there is one, or gone. */
  ghost predicate Carried<R>(before: map<Id, R>, s: Statement<R>, after: map<Id, R>) {
    match s
    case Insert(rows) =>
      && after.Keys == before.Keys + rows.Keys
      && forall id | id in after :: after[id] == if id in rows then rows[id] else before[id]
    case Update(rows) =>
      && after.Keys == before.Keys
      && forall id | id in after :: after[id] == if id in rows then rows[id] else before[id]
    case Delete(ids) =>
      && after.Keys == before.Keys - ids
      && forall id | id in after :: after[id] == before[id]
  }

  /** A statement is refused exactly for a taken id or an unknown building, and else carried out. */
  lemma ResidentStatementResult(db: Db, s: Statement<Resident>)
    ensures var (after, outcome) := Step(db, ResidentStatement(s));
      && (outcome == Done <==> match s
            case Insert(rows) => forall id | id in rows :: id !in db.residents && rows[id].building in db.buildings
            case Update(rows) => forall id | id in rows && id in db.residents :: rows[id].building in db.buildings
            case Delete(_) => true)
      && (outcome == Done ==> Carried(db.residents, s, after.residents))
      && after.offers == db.offers && after.participants == db.participants
  {
  }

  lemma OfferStatementRefusedIff(db: Db, s: Statement<OfferColumns>)
    ensures Step(db, OfferStatement(s)).1 == Done <==> match s
      case Insert(rows) => forall id | id in rows :: id !in db.offers && rows[id].building in db.buildings
      case Update(rows) => forall id | id in rows && id in db.offers :: rows[id].building in db.buildings
      case Delete(_) => true
  {
    var rows := OfferRows(db.offers, s);
    assert forall id | id in Written(db.offers, rows) ::
      id in s.rows && Written(db.offers, rows)[id].building == s.rows[id].building;
    if s.Insert? { assert rows.rows.Keys == s.rows.Keys; }
    if s.Update? { assert Written(db.offers, rows).Keys == s.rows.Keys * db.offers.Keys; }
  }

  lemma OfferRowsCarried(offers: map<Id, Offer>, s: Statement<OfferColumns>)
    requires s.Insert? ==> s.rows.Keys !! offers.Keys
    ensures var after := After(offers, OfferRows(offers, s));
      && Carried(Columns(offers), s, Columns(after))
      && forall id | id in after :: after[id].current == if id in offers then offers[id].current else 0
  {
  }

  /** The same for offers; a new one has no participants yet, and a deleted one takes its own along. */
  lemma OfferStatementResult(db: Db, s: Statement<OfferColumns>)
    requires Step(db, OfferStatement(s)).1 == Done
    ensures var after := Step(db, OfferStatement(s)).0;
      && Carried(Columns(db.offers), s, Columns(after.offers))
      && (forall id | id in after.offers ::
            after.offers[id].current == if id in db.offers then db.offers[id].current else 0)
      && (forall p | p in db.participants :: p in after.participants <==>
            !(s.Delete? && db.participants[p].offer in s.ids))
      && (forall p | p in after.participants ::
            p in db.participants && after.participants[p] == db.participants[p])
      && after.residents == db.residents
  {
    if s.Insert? { assert OfferRows(db.offers, s).rows.Keys == s.rows.Keys; }
    OfferRowsCarried(db.offers, s);
    assert Step(db, OfferStatement(s)).0.offers == After(db.offers, OfferRows(db.offers, s));
  }

  function Columns(offers: map<Id, Offer>): map<Id, OfferColumns> {
    map id | id in offers :: OfferColumns(offers[id].building, offers[id].status, offers[id].capacity)
  }

  /** A refused or repeated request leaves no trace, and a leave is never refused. */
  lemma RefusedChangesNothing(db: Db, e: Event)
    ensures Step(db, e).1 != Done ==> Step(db, e).0 == db
    ensures e.Leave? ==> Step(db, e).1 == Done
    ensures Step(db, e).1 == AlreadyJoined <==> e.JoinAtomic? && Rows(db.participants, e.user, e.offer) != {}
  {
  }

  /**
   A guarded join succeeds exactly for a newcomer to an open offer with room; then the user holds
   one row of exactly those units, the counter rises by them, and no other offer or row changes.
   */
  lemma JoinResult(db: Db, pid: Id, user: Id, o: Id, units: int)
    requires pid !in db.participants
    ensures var (after, outcome) := Step(db, Join(pid, user, o, units));
      && (outcome == Done <==>
            && o in db.offers && db.offers[o].status in {Pending, Matching}
            && db.offers[o].current < db.offers[o].capacity && Rows(db.participants, user, o) == {})
      && (outcome == Done ==>
            && Rows(after.participants, user, o) == {pid} && after.participants[pid].units == units
            && after.participants - {pid} == db.participants
            && o in after.offers && after.offers[o].current == db.offers[o].current + units
            && after.offers[o].current < after.offers[o].capacity + units
            && after.offers - {o} == db.offers - {o})
  {
    if Step(db, Join(pid, user, o, units)).1 == Done {
      JoinEffect(db, pid, user, o, units);
      OnlyRow(db.participants, pid, user, o, units);
    }
  }

  /**
   The SQL function joins a newcomer to an open offer whatever its capacity; a repeated call
   reports so, and anything else is refused. What a join changes is as in JoinResult.
   */
  lemma AtomicJoinResult(db: Db, pid: Id, user: Id, o: Id, units: int)
    requires pid !in db.participants
    ensures var (after, outcome) := Step(db, JoinAtomic(pid, user, o, units));
      && (outcome == Done <==>
            o in db.offers && db.offers[o].status in {Pending, Matching} && Rows(db.participants, user, o) == {})
      && (outcome == AlreadyJoined <==> Rows(db.participants, user, o) != {})
      && (outcome == Done ==>
            && Rows(after.participants, user, o) == {pid} && after.participants[pid].units == units
            && after.participants - {pid} == db.participants
            && o in after.offers && after.offers[o].current == db.offers[o].current + units
            && after.offers - {o} == db.offers - {o})
  {
    if Step(db, JoinAtomic(pid, user, o, units)).1 == Done {
      JoinEffect(db, pid, user, o, units);
      OnlyRow(db.participants, pid, user, o, units);
    }
  }

  // ---- capacity ----

  /** No offer's counter is more than units - 1 above its capacity. */
  ghost predicate WithinCapacity(db: Db, units: int) {
    forall o | o in db.offers :: db.offers[o].current <= db.offers[o].capacity + units - 1
  }

  /** The units still fit into the offer, give or take units - 1. */
  predicate Fits(db: Db, o: Id, n: int, units: int)
    requires o in db.offers
  {
    db.offers[o].current + n <= db.offers[o].capacity + units - 1
  }

  /**
   What a request must meet to keep the counters within capacity: an admitted join must fit, and a
   written offer must not get a capacity below its counter. Nothing else can break it.
   */
  ghost predicate RespectsCapacity(db: Db, e: Event, units: int) {
    match e
    case ResidentStatement(_) => true
    case OfferStatement(s) =>
      var rows := OfferRows(db.offers, s);
      OffersAccepted(db, rows) ==>
        forall id | id in Written(db.offers, rows) ::
          Written(db.offers, rows)[id].current <= Written(db.offers, rows)[id].capacity + units - 1
    case Join(_, _, o, n) => Step(db, e).1 == Done ==> Fits(db, o, n, units)
    case JoinAtomic(_, _, o, n) => Step(db, e).1 == Done ==> Fits(db, o, n, units)
    case Leave(_, _) => true
  }

  ghost predicate AllRespectCapacity(db: Db, events: seq<Event>, units: int)
    decreases |events|
  {
    events == [] ||
    (var init := events[..|events| - 1];
     AllRespectCapacity(db, init, units) && RespectsCapacity(Run(db, init), events[|events| - 1], units))
  }

  lemma JoinedWithinCapacity(db: Db, pid: Id, user: Id, o: Id, n: int, units: int)
    requires WithinCapacity(db, units) && o in db.offers
    ensures WithinCapacity(Joined(db, pid, user, o, n), units) <==> Fits(db, o, n, units)
  {
    JoinEffect(db, pid, user, o, n);
    var after := Joined(db, pid, user, o, n);
    assert o in after.offers && after.offers[o].current == db.offers[o].current + n;
    assert forall q | q in after.offers && q != o :: after.offers[q] == db.offers[q];
  }

  lemma OfferStatementWithinCapacity(db: Db, s: Statement<OfferColumns>, units: int)
    requires WithinCapacity(db, units) && OffersAccepted(db, OfferRows(db.offers, s))
    ensures WithinCapacity(Step(db, OfferStatement(s)).0, units) <==> RespectsCapacity(db, OfferStatement(s), units)
  {
    var rows := OfferRows(db.offers, s);
    assert Step(db, OfferStatement(s)).0.offers == After(db.offers, rows);
    assert forall id | id in Written(db.offers, rows) ::
      id in After(db.offers, rows) && After(db.offers, rows)[id] == Written(db.offers, rows)[id];
  }

  lemma LeftWithinCapacity(db: Db, user: Id, o: Id, units: int)
    requires WithinCapacity(db, units) && WellFormed(db) && Bounded(db)
    ensures WithinCapacity(Left(db, user, o), units)
  {
    LeaveEffect(db, user, o);
    assert forall p | p in Rows(db.participants, user, o) :: db.participants[p].units >= 1;
  }

  /** One request keeps the counters within capacity if and only if it respects the capacity. */
  lemma StepWithinCapacityIff(db: Db, e: Event, units: int)
    requires WithinCapacity(db, units) && WellFormed(db) && Bounded(db)
    ensures WithinCapacity(Step(db, e).0, units) <==> RespectsCapacity(db, e, units)
  {
    match e
    case ResidentStatement(s) =>
    case OfferStatement(s) =>
      if OffersAccepted(db, OfferRows(db.offers, s)) { OfferStatementWithinCapacity(db, s, units); }
    case Join(pid, user, o, n) =>
      if Step(db, e).1 == Done { JoinedWithinCapacity(db, pid, user, o, n, units); }
    case JoinAtomic(pid, user, o, n) =>
      if Step(db, e).1 == Done { JoinedWithinCapacity(db, pid, user, o, n, units); }
    case Leave(user, o) =>
      LeftWithinCapacity(db, user, o, units);
  }

  /**
   A newcomer's guarded join of an offer with room keeps every counter within its capacity if and
   only if all its units fit; the guard itself looks at the old counter alone.
   */
  lemma JoinKeepsCapacityIff(db: Db, pid: Id, user: Id, o: Id, n: int)
    requires WithinCapacity(db, 1) && pid !in db.participants && Rows(db.participants, user, o) == {}
    requires o in db.offers && OpenStatus(db.offers[o].status) && db.offers[o].current < db.offers[o].capacity
    ensures WithinCapacity(Step(db, Join(pid, user, o, n)).0, 1)
       <==> db.offers[o].current + n <= db.offers[o].capacity
  {
    JoinedWithinCapacity(db, pid, user, o, n, 1);
  }

  /** The same holds of the SQL function, whether or not the offer has room. */
  lemma AtomicJoinKeepsCapacityIff(db: Db, pid: Id, user: Id, o: Id, n: int)
    requires WithinCapacity(db, 1) && pid !in db.participants && Rows(db.participants, user, o) == {}
    requires o in db.offers && OpenStatus(db.offers[o].status)
    ensures WithinCapacity(Step(db, JoinAtomic(pid, user, o, n)).0, 1)
       <==> db.offers[o].current + n <= db.offers[o].capacity
  {
    JoinedWithinCapacity(db, pid, user, o, n, 1);
  }

  /** Within capacity now and at every earlier point of the run. */
  ghost predicate WithinCapacityThroughout(db: Db, events: seq<Event>, units: int)
    decreases |events|
  {
    && WithinCapacity(Run(db, events), units)
    && (events == [] || WithinCapacityThroughout(db, events[..|events| - 1], units))
  }

  /**
   Main result: over every run, guarded and atomic joins included, the counters are within capacity
   at every point if and only if every request met the capacity it found.
   */
  lemma {:induction false} CapacityThroughoutIff(db: Db, events: seq<Event>, units: int)
    requires WithinCapacity(db, units) && WellFormed(db) && Bounded(db)
    requires forall e | e in events :: UnitsPositive(e)
    ensures WithinCapacityThroughout(db, events, units) <==> AllRespectCapacity(db, events, units)
    decreases |events|
  {
    if events != [] {
      var init, last := events[..|events| - 1], events[|events| - 1];
      CapacityThroughoutIff(db, init, units);
      if WithinCapacityThroughout(db, init, units) {
        ParticipationAfterEveryRun(db, init);
        StepWithinCapacityIff(Run(db, init), last, units);
      }
    }
  }

  /** Guarded joins of at most `units` units; atomic joins and written capacities that fit. */
  ghost predicate Modest(db: Db, e: Event, units: int) {
    if e.Join? then e.units <= units else RespectsCapacity(db, e, units)
  }

  ghost predicate AllModest(db: Db, events: seq<Event>, units: int)
    decreases |events|
  {
    events == [] ||
    (var init := events[..|events| - 1];
     AllModest(db, init, units) && Modest(Run(db, init), events[|events| - 1], units))
  }

  /** The guard is enough for joins of one unit, and misses by less than `units` for larger ones. */
  lemma {:induction false} ModestRespects(db: Db, events: seq<Event>, units: int)
    requires AllModest(db, events, units)
    ensures AllRespectCapacity(db, events, units)
    decreases |events|
  {
    if events != [] {
      ModestRespects(db, events[..|events| - 1], units);
    }
  }

  /**
   Main result: along any run whose guarded joins are of at most `units` units and whose atomic
   joins fit, no counter passes its capacity by `units` or more; with single-unit joins no counter
   ever passes its capacity.
   */
  lemma CapacityAfterEveryRun(db: Db, events: seq<Event>, units: int)
    requires WithinCapacity(db, units) && WellFormed(db) && Bounded(db)
    requires forall e | e in events :: UnitsPositive(e)
    requires AllModest(db, events, units)
    ensures WithinCapacity(Run(db, events), units)
    ensures units == 1 ==> forall o | o in Run(db, events).offers ::
      Run(db, events).offers[o].current <= Run(db, events).offers[o].capacity
  {
    ModestRespects(db, events, units);
    CapacityThroughoutIff(db, events, units);
  }

  // ---- concrete failures ----

  /** A pending offer of capacity one with the given participants. */
  function SmallOffer(current: int, participants: map<Id, Participant>): Db {
    Db(map["b" := Building(0, 1)], map[], map["o" := Offer("b", Pending, current, 1)], participants)
  }

  function FullOffer(): Db { SmallOffer(1, map["p" := Participant("o", "u", 1)]) }

  function EmptyOffer(): Db { SmallOffer(0, map[]) }

  lemma SmallOfferCountersExact(current: int, participants: map<Id, Participant>)
    ensures CountersExact(SmallOffer(current, participants))
  {
    var db := SmallOffer(current, participants);
    assert PendingOrActive(db.offers, "b") == {"o"};
    assert LivingIn(db.residents, "b") == {};
  }

  lemma FullOfferIsConsistent()
    ensures WellFormed(FullOffer()) && Bounded(FullOffer()) && WithinCapacity(FullOffer(), 1)
    ensures Drift(FullOffer(), "o") == 0 && Rows(FullOffer().participants, "v", "o") == {}
  {
    SumOfNone(map[], "o");
    SumInsert(map[], "p", Participant("o", "u", 1), "o");
  }

  /** The SQL function has no capacity guard: it can fill an offer of capacity one twice. */
  lemma AtomicJoinPassesCapacity()
    ensures WellFormed(FullOffer()) && Bounded(FullOffer()) && CountersExact(FullOffer())
    ensures WithinCapacity(FullOffer(), 1)
    ensures Step(FullOffer(), JoinAtomic("q", "v", "o", 1)).1 == Done
    ensures !WithinCapacity(Step(FullOffer(), JoinAtomic("q", "v", "o", 1)).0, 1)
  {
    FullOfferIsConsistent();
    SmallOfferCountersExact(1, FullOffer().participants);
    AtomicJoinKeepsCapacityIff(FullOffer(), "q", "v", "o", 1);
  }

  /** One guarded join of two units passes a capacity of one. */
  lemma LargeJoinPassesCapacity()
    ensures WellFormed(EmptyOffer()) && Bounded(EmptyOffer()) && CountersExact(EmptyOffer())
    ensures WithinCapacity(EmptyOffer(), 1)
    ensures Step(EmptyOffer(), Join("q", "v", "o", 2)).1 == Done
    ensures !WithinCapacity(Step(EmptyOffer(), Join("q", "v", "o", 2)).0, 1)
  {
    SumOfNone(map[], "o");
    SmallOfferCountersExact(0, map[]);
    assert Rows(EmptyOffer().participants, "v", "o") == {};
    JoinKeepsCapacityIff(EmptyOffer(), "q", "v", "o", 2);
  }

  /** A user who is not in the full offer leaves it, and one unit is no longer counted. */
  lemma StrayLeaveLosesUnit()
    ensures Drift(FullOffer(), "o") == 0 && Rows(FullOffer().participants, "v", "o") == {}
    ensures "o" in Left(FullOffer(), "v", "o").offers && Drift(Left(FullOffer(), "v", "o"), "o") == 1
  {
    FullOfferIsConsistent();
    LeaveEffect(FullOffer(), "v", "o");
    LeaveRemoves(FullOffer(), "v", "o", "o");
  }
}
