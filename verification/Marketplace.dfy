/**
 Every committed or refused transaction on the marketplace tables as one step, and what every
 run of such steps keeps: the building counters maintained by triggers, and the participant
 counter maintained by joining and leaving.
 */
module Marketplace {
  import opened MarketplaceTables
  import opened Numbers

  /** The columns of an offer that ordinary statements write; the counter is not one of them. */
  datatype OfferColumns = OfferColumns(building: Id, status: Status, capacity: int)

  datatype Event =
    | ResidentStatement(residents: Statement<Resident>)
    | OfferStatement(offers: Statement<OfferColumns>)
    | Join(pid: Id, user: Id, offer: Id, units: int)
    | JoinAtomic(pid: Id, user: Id, offer: Id, units: int)
    | Leave(user: Id, offer: Id)

  // ---- triggers ----

  /** The buildings whose resident_count the trigger recomputes for one changed row. */
  function ResidentEnds(c: RowChange<Resident>): set<Id> {
    match c
    case Inserted(n) => {n.building}
    case Deleted(o) => {o.building}
    case Updated(o, n) => if o.building != n.building then {o.building, n.building} else {}
  }

  /** The buildings whose active_offers the trigger recomputes for one changed row. */
  function OfferEnds(c: RowChange<Offer>): set<Id> {
    match c
    case Inserted(n) => {n.building}
    case Deleted(o) => {o.building}
    case Updated(o, n) => {n.building, o.building}
  }

  function ResidentTouched(before: map<Id, Resident>, after: map<Id, Resident>, ids: set<Id>): set<Id>
    requires ids <= before.Keys + after.Keys
  {
    set id, b | id in ids && b in ResidentEnds(ChangeOf(before, after, id)) :: b
  }

  function OfferTouched(before: map<Id, Offer>, after: map<Id, Offer>, ids: set<Id>): set<Id>
    requires ids <= before.Keys + after.Keys
  {
    set id, b | id in ids && b in OfferEnds(ChangeOf(before, after, id)) :: b
  }

  function RefreshResidents(buildings: map<Id, Building>, residents: map<Id, Resident>, touched: set<Id>)
    : map<Id, Building>
  {
    map b | b in buildings ::
      if b in touched then buildings[b].(residentCount := |ResidentRows(residents, b)|) else buildings[b]
  }

  function RefreshOffers(buildings: map<Id, Building>, offers: map<Id, Offer>, touched: set<Id>)
    : map<Id, Building>
  {
    map b | b in buildings ::
      if b in touched then buildings[b].(activeOffers := |ActiveOfferRows(offers, b)|) else buildings[b]
  }

  // ---- steps ----

  function SetResidents(db: Db, s: Statement<Resident>): Db {
    var after := After(db.residents, s);
    var touched := ResidentTouched(db.residents, after, Fired(db.residents, s));
    db.(residents := after, buildings := RefreshResidents(db.buildings, after, touched))
  }

  function SetOffers(db: Db, s: Statement<Offer>): Db {
    var after := After(db.offers, s);
    var touched := OfferTouched(db.offers, after, Fired(db.offers, s));
    db.(offers := after, buildings := RefreshOffers(db.buildings, after, touched))
  }

  /** A new offer starts with no participants; an update keeps the counter it finds. */
  function OfferRows(offers: map<Id, Offer>, s: Statement<OfferColumns>): Statement<Offer> {
    match s
    case Insert(rows) =>
      Insert(map id | id in rows :: Offer(rows[id].building, rows[id].status, 0, rows[id].capacity))
    case Update(rows) =>
      Update(map id | id in rows && id in offers ::
        Offer(rows[id].building, rows[id].status, offers[id].current, rows[id].capacity))
    case Delete(ids) => Delete(ids)
  }

  predicate ResidentsAccepted(db: Db, s: Statement<Resident>) {
    && (s.Insert? ==> s.rows.Keys !! db.residents.Keys)
    && (forall id | id in Written(db.residents, s) :: Written(db.residents, s)[id].building in db.buildings)
  }

  predicate OffersAccepted(db: Db, s: Statement<Offer>) {
    && (s.Insert? ==> s.rows.Keys !! db.offers.Keys)
    && (forall id | id in Written(db.offers, s) :: Written(db.offers, s)[id].building in db.buildings)
  }

  /** Participants go with their offer (ON DELETE CASCADE). */
  function Cascade(db: Db, s: Statement<Offer>): Db {
    if s.Delete? then
      db.(participants := db.participants - (set p | p in db.participants && db.participants[p].offer in s.ids))
    else db
  }

  function Rows(participants: map<Id, Participant>, user: Id, offer: Id): set<Id> {
    set p | p in participants && participants[p].user == user && participants[p].offer == offer
  }

  /** UPDATE offers SET current_participants = n WHERE id = offer */
  function CounterUpdate(db: Db, offer: Id, n: int): Statement<Offer>
    requires offer in db.offers
  {
    Update(map[offer := db.offers[offer].(current := n)])
  }

  function SetCounter(db: Db, offer: Id, n: int): Db
    requires offer in db.offers
  {
    SetOffers(db, CounterUpdate(db, offer, n))
  }

  function AddParticipant(db: Db, pid: Id, user: Id, offer: Id, units: int): Db {
    db.(participants := db.participants[pid := Participant(offer, user, units)])
  }

  function Joined(db: Db, pid: Id, user: Id, offer: Id, units: int): Db
    requires offer in db.offers
  {
    SetCounter(AddParticipant(db, pid, user, offer, units), offer, db.offers[offer].current + units)
  }

  ghost function Left(db: Db, user: Id, offer: Id): Db {
    var gone := db.(participants := db.participants - Rows(db.participants, user, offer));
    if offer in db.offers then
      SetCounter(gone, offer, Max(0, db.offers[offer].current - UnitsHeld(db.participants, user, offer)))
    else gone
  }

  predicate OpenStatus(s: Status) { s == Pending || s == Matching }

  ghost function UnitsHeld(participants: map<Id, Participant>, user: Id, offer: Id): int {
    var rows := Rows(participants, user, offer);
    if rows == {} then 1 else var p :| p in rows; participants[p].units
  }

  ghost function Step(db: Db, e: Event): (r: (Db, Outcome)) {
    match e
    case ResidentStatement(s) =>
      if ResidentsAccepted(db, s) then (SetResidents(db, s), Done) else (db, Refused)
    case OfferStatement(s) =>
      var rows := OfferRows(db.offers, s);
      if OffersAccepted(db, rows) then (SetOffers(Cascade(db, rows), rows), Done) else (db, Refused)
    case Join(pid, user, offer, units) =>
      if pid in db.participants || Rows(db.participants, user, offer) != {} || offer !in db.offers
         || !OpenStatus(db.offers[offer].status) || db.offers[offer].current >= db.offers[offer].capacity
      then (db, Refused)
      else (Joined(db, pid, user, offer, units), Done)
    case JoinAtomic(pid, user, offer, units) =>
      if Rows(db.participants, user, offer) != {} then (db, AlreadyJoined)
      else if pid in db.participants || offer !in db.offers || !OpenStatus(db.offers[offer].status)
      then (db, Refused)
      else (Joined(db, pid, user, offer, units), Done)
    case Leave(user, offer) => (Left(db, user, offer), Done)
  }

  ghost function Run(db: Db, events: seq<Event>): Db
    decreases |events|
  {
    if events == [] then db else Step(Run(db, events[..|events| - 1]), events[|events| - 1]).0
  }

  // ---- building counters ----

  /** The rows resident_count stands for. */
  ghost function LivingIn(residents: map<Id, Resident>, b: Id): set<Id> {
    set r | r in residents && residents[r].building == b
  }

  /** The rows active_offers stands for, with the two statuses written out. */
  ghost function PendingOrActive(offers: map<Id, Offer>, b: Id): set<Id> {
    set o | o in offers && offers[o].building == b && offers[o].status in {Pending, Active}
  }

  ghost predicate ResidentCountsExact(db: Db) {
    forall b | b in db.buildings :: db.buildings[b].residentCount == |LivingIn(db.residents, b)|
  }

  ghost predicate ActiveOffersExact(db: Db) {
    forall b | b in db.buildings :: db.buildings[b].activeOffers == |PendingOrActive(db.offers, b)|
  }

  /** What the triggers select are the residents of a building, and its pending and active offers. */
  lemma TriggersSelect(residents: map<Id, Resident>, offers: map<Id, Offer>)
    ensures forall b :: ResidentRows(residents, b) == LivingIn(residents, b)
    ensures forall b :: ActiveOfferRows(offers, b) == PendingOrActive(offers, b)
  {
  }

  ghost predicate CountersExact(db: Db) { ResidentCountsExact(db) && ActiveOffersExact(db) }

  /** A building no changed resident row enters or leaves keeps exactly its resident rows. */
  lemma UntouchedResidents(before: map<Id, Resident>, s: Statement<Resident>, b: Id)
    requires s.Insert? ==> s.rows.Keys !! before.Keys
    requires b !in ResidentTouched(before, After(before, s), Fired(before, s))
    ensures LivingIn(After(before, s), b) == LivingIn(before, b)
  {
    var after := After(before, s);
    forall id | id in before || id in after
      ensures id in LivingIn(after, b) <==> id in LivingIn(before, b)
    {
      if id in Fired(before, s) {
        assert b !in ResidentEnds(ChangeOf(before, after, id));
      }
    }
  }

  lemma UntouchedOffers(before: map<Id, Offer>, s: Statement<Offer>, b: Id)
    requires s.Insert? ==> s.rows.Keys !! before.Keys
    requires b !in OfferTouched(before, After(before, s), Fired(before, s))
    ensures PendingOrActive(After(before, s), b) == PendingOrActive(before, b)
  {
    var after := After(before, s);
    forall id | id in before || id in after
      ensures id in PendingOrActive(after, b) <==> id in PendingOrActive(before, b)
    {
      if id in Fired(before, s) {
        assert b !in OfferEnds(ChangeOf(before, after, id));
      }
    }
  }

  lemma SetResidentsExact(db: Db, s: Statement<Resident>)
    requires s.Insert? ==> s.rows.Keys !! db.residents.Keys
    requires CountersExact(db)
    ensures CountersExact(SetResidents(db, s))
  {
    TriggersSelect(After(db.residents, s), db.offers);
    var after := After(db.residents, s);
    var touched := ResidentTouched(db.residents, after, Fired(db.residents, s));
    forall b | b in db.buildings && b !in touched
      ensures LivingIn(after, b) == LivingIn(db.residents, b)
    {
      UntouchedResidents(db.residents, s, b);
    }
  }

  lemma SetOffersExact(db: Db, s: Statement<Offer>)
    requires s.Insert? ==> s.rows.Keys !! db.offers.Keys
    requires CountersExact(db)
    ensures CountersExact(SetOffers(db, s))
  {
    TriggersSelect(db.residents, After(db.offers, s));
    var after := After(db.offers, s);
    var touched := OfferTouched(db.offers, after, Fired(db.offers, s));
    forall b | b in db.buildings && b !in touched
      ensures PendingOrActive(after, b) == PendingOrActive(db.offers, b)
    {
      UntouchedOffers(db.offers, s, b);
    }
  }

  /** Rewriting one offer's counter keeps the building counters exact, whatever the participants. */
  lemma SetCounterExact(base: Db, db: Db, offer: Id, n: int, after: Db)
    requires CountersExact(base) && offer in db.offers
    requires db.buildings == base.buildings && db.residents == base.residents && db.offers == base.offers
    requires after == SetCounter(db, offer, n)
    ensures CountersExact(after)
  {
    var s := CounterUpdate(db, offer, n);
    SameCounters(base, db);
    SetOffersExact(db, s);
  }

  lemma SameCounters(db: Db, other: Db)
    requires CountersExact(db)
    requires other.buildings == db.buildings && other.residents == db.residents && other.offers == db.offers
    ensures CountersExact(other)
  {
  }

  lemma JoinedExact(db: Db, pid: Id, user: Id, offer: Id, units: int)
    requires CountersExact(db) && offer in db.offers
    ensures CountersExact(Joined(db, pid, user, offer, units))
  {
    SetCounterExact(db, AddParticipant(db, pid, user, offer, units), offer,
      db.offers[offer].current + units, Joined(db, pid, user, offer, units));
  }

  lemma LeftExact(db: Db, user: Id, offer: Id)
    requires CountersExact(db)
    ensures CountersExact(Left(db, user, offer))
  {
    var gone := db.(participants := db.participants - Rows(db.participants, user, offer));
    if offer in db.offers {
      SetCounterExact(db, gone, offer,
        Max(0, db.offers[offer].current - UnitsHeld(db.participants, user, offer)), Left(db, user, offer));
    } else {
      SameCounters(db, gone);
    }
  }

  lemma StatementKeepsCountersExact(db: Db, e: Event)
    requires CountersExact(db) && (e.ResidentStatement? || e.OfferStatement?)
    ensures CountersExact(Step(db, e).0)
  {
    match e
    case ResidentStatement(s) =>
      if ResidentsAccepted(db, s) { SetResidentsExact(db, s); }
    case OfferStatement(s) =>
      var rows := OfferRows(db.offers, s);
      if OffersAccepted(db, rows) { SetOffersExact(Cascade(db, rows), rows); }
  }

  lemma StepKeepsCountersExact(db: Db, e: Event)
    requires CountersExact(db)
    ensures CountersExact(Step(db, e).0)
  {
    match e
    case Join(pid, user, offer, units) =>
      if Step(db, e).1 == Done { JoinedExact(db, pid, user, offer, units); }
    case JoinAtomic(pid, user, offer, units) =>
      if Step(db, e).1 == Done { JoinedExact(db, pid, user, offer, units); }
    case Leave(user, offer) => LeftExact(db, user, offer);
    case _ => StatementKeepsCountersExact(db, e);
  }

  /** Main result: after any run, every building's two counters equal the rows they count. */
  lemma {:induction false} CountersExactAfterEveryRun(db: Db, events: seq<Event>)
    requires CountersExact(db)
    ensures CountersExact(Run(db, events))
    decreases |events|
  {
    if events != [] {
      CountersExactAfterEveryRun(db, events[..|events| - 1]);
      StepKeepsCountersExact(Run(db, events[..|events| - 1]), events[|events| - 1]);
    }
  }

  /** No step creates or removes a building, or changes one that gains or loses no counted row. */
  lemma OtherBuildingsUnchanged(db: Db, e: Event, b: Id)
    requires CountersExact(db) && b in db.buildings
    requires LivingIn(db.residents, b) == LivingIn(Step(db, e).0.residents, b)
    requires PendingOrActive(db.offers, b) == PendingOrActive(Step(db, e).0.offers, b)
    ensures Step(db, e).0.buildings.Keys == db.buildings.Keys
    ensures Step(db, e).0.buildings[b] == db.buildings[b]
  {
    StepKeepsCountersExact(db, e);
    StepKeepsBuildings(db, e);
  }

  lemma StepKeepsBuildings(db: Db, e: Event)
    ensures Step(db, e).0.buildings.Keys == db.buildings.Keys
  {
  }

  /** The migration's back-fill makes any stored counters exact, whatever they were. */
  function Backfilled(db: Db): Db {
    var counted := RefreshResidents(db.buildings, db.residents, db.buildings.Keys);
    db.(buildings := RefreshOffers(counted, db.offers, db.buildings.Keys))
  }

  lemma BackfillThenEveryRunExact(db: Db, events: seq<Event>)
    ensures CountersExact(Run(Backfilled(db), events))
    ensures Backfilled(db).buildings.Keys == db.buildings.Keys
    ensures CountersExact(db) ==> Backfilled(db) == db
  {
    TriggersSelect(db.residents, db.offers);
    CountersExactAfterEveryRun(Backfilled(db), events);
    if CountersExact(db) {
      assert forall b | b in db.buildings :: Backfilled(db).buildings[b] == db.buildings[b];
      assert Backfilled(db).buildings == db.buildings;
    }
  }
}
