/**
 The four tables whose denormalised counters must agree with their rows: buildings,
 building_residents, offers and offer_participants, with SQL statements over them and the
 aggregates (COUNT, SUM) the counters stand for.
 */
module MarketplaceTables {

  type Id = string

  datatype Status =
    | Draft | Pending | Active | Matching | Matched | InProgress | Completed | Cancelled | Flagged

  datatype Building = Building(residentCount: int, activeOffers: int)
  datatype Resident = Resident(user: Id, building: Id)
  datatype Offer = Offer(building: Id, status: Status, current: int, capacity: int)
  datatype Participant = Participant(offer: Id, user: Id, units: int)

  datatype Db = Db(
    buildings: map<Id, Building>,
    residents: map<Id, Resident>,
    offers: map<Id, Offer>,
    participants: map<Id, Participant>)

  /** One INSERT, UPDATE or DELETE statement on a table; it may write many rows. */
  datatype Statement<R> = Insert(rows: map<Id, R>) | Update(rows: map<Id, R>) | Delete(ids: set<Id>)

  /** What a row-level trigger sees: TG_OP with NEW and OLD. */
  datatype RowChange<R> = Inserted(new_: R) | Updated(old_: R, new_: R) | Deleted(old_: R)

  datatype Outcome = Done | AlreadyJoined | Refused

  // ---- statements ----

  /** The rows a statement writes: an UPDATE reaches only rows that exist. */
  function Written<R>(table: map<Id, R>, s: Statement<R>): map<Id, R> {
    match s
    case Insert(rows) => rows
    case Update(rows) => map id | id in rows && id in table :: rows[id]
    case Delete(_) => map[]
  }

  function After<R>(table: map<Id, R>, s: Statement<R>): map<Id, R> {
    if s.Delete? then table - s.ids else table + Written(table, s)
  }

  /** The rows for which an AFTER ... FOR EACH ROW trigger fires. */
  function Fired<R>(table: map<Id, R>, s: Statement<R>): set<Id> {
    if s.Delete? then s.ids * table.Keys else Written(table, s).Keys
  }

  function ChangeOf<R>(before: map<Id, R>, after: map<Id, R>, id: Id): RowChange<R>
    requires id in before || id in after
  {
    if id !in before then Inserted(after[id])
    else if id !in after then Deleted(before[id])
    else Updated(before[id], after[id])
  }

  // ---- aggregates ----

  function ResidentRows(residents: map<Id, Resident>, b: Id): set<Id> {
    set r | r in residents && residents[r].building == b
  }

  predicate CountsAsActive(o: Offer) { o.status == Pending || o.status == Active }

  function ActiveOfferRows(offers: map<Id, Offer>, b: Id): set<Id> {
    set o | o in offers && offers[o].building == b && CountsAsActive(offers[o])
  }

  function Share(p: Participant, o: Id): int { if p.offer == o then p.units else 0 }

  /** SELECT SUM(unit_count) FROM offer_participants WHERE offer_id = o */
  ghost function SumUnits(participants: map<Id, Participant>, o: Id): int
    decreases |participants|
  {
    if participants == map[] then 0
    else
      var k :| k in participants;
      Share(participants[k], o) + SumUnits(participants - {k}, o)
  }

  lemma {:induction false} SumRemove(m: map<Id, Participant>, k: Id, o: Id)
    requires k in m
    ensures SumUnits(m, o) == Share(m[k], o) + SumUnits(m - {k}, o)
    decreases |m|
  {
    var j :| j in m && SumUnits(m, o) == Share(m[j], o) + SumUnits(m - {j}, o);
    if j != k {
      SumRemove(m - {j}, k, o);
      SumRemove(m - {k}, j, o);
      assert m - {j} - {k} == m - {k} - {j};
    }
  }

  lemma SumInsert(m: map<Id, Participant>, k: Id, p: Participant, o: Id)
    requires k !in m
    ensures SumUnits(m[k := p], o) == SumUnits(m, o) + Share(p, o)
  {
    SumRemove(m[k := p], k, o);
    assert m[k := p] - {k} == m;
  }

  /** Dropping rows that carry no units for an offer leaves that offer's sum alone. */
  lemma {:induction false} SumDropOthers(m: map<Id, Participant>, gone: set<Id>, o: Id)
    requires forall k | k in gone && k in m :: m[k].offer != o
    ensures SumUnits(m - gone, o) == SumUnits(m, o)
    decreases gone
  {
    if gone == {} {
      assert m - gone == m;
    } else {
      var k :| k in gone;
      var rest := gone - {k};
      SumDropOthers(m, rest, o);
      if k in m {
        SumRemove(m - rest, k, o);
        assert (m - rest) - {k} == m - gone;
      } else {
        assert m - rest == m - gone;
      }
    }
  }

  lemma SumOfNone(m: map<Id, Participant>, o: Id)
    requires forall k :: k in m ==> m[k].offer != o
    ensures SumUnits(m, o) == 0
  {
    SumDropOthers(m, m.Keys, o);
    assert m - m.Keys == map[];
  }

  lemma {:induction false} SumNonNegative(m: map<Id, Participant>, o: Id)
    requires forall k :: k in m ==> m[k].units >= 1
    ensures SumUnits(m, o) >= 0
    decreases |m|
  {
    if m != map[] {
      var k :| k in m;
      SumRemove(m, k, o);
      SumNonNegative(m - {k}, o);
    }
  }
}
