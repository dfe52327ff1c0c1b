/**
 The tables as mutable state: trigger functions that recompute one building at a time, statements
 that fire them row by row, and the join and leave transactions with their rollbacks. Every
 method is proved to take exactly one step of the Marketplace model.
 */
module MarketplaceDb {
  import opened MarketplaceTables
  import opened Marketplace
  import opened Numbers
  import opened Participation

  /** Firing the trigger for one more row refreshes the buildings at that row's ends as well. */
  lemma ResidentsTouchedOneMore(
      buildings: map<Id, Building>, before: map<Id, Resident>, after: map<Id, Resident>,
      fired: set<Id>, todo: set<Id>, id: Id)
    requires fired <= before.Keys + after.Keys && id in todo && todo <= fired
    ensures RefreshResidents(RefreshResidents(buildings, after, ResidentTouched(before, after, fired - todo)), after,
                             ResidentEnds(ChangeOf(before, after, id)))
         == RefreshResidents(buildings, after, ResidentTouched(before, after, fired - (todo - {id})))
  {
    assert ResidentTouched(before, after, fired - (todo - {id}))
        == ResidentTouched(before, after, fired - todo) + ResidentEnds(ChangeOf(before, after, id));
  }

  lemma OffersTouchedOneMore(
      buildings: map<Id, Building>, before: map<Id, Offer>, after: map<Id, Offer>,
      fired: set<Id>, todo: set<Id>, id: Id)
    requires fired <= before.Keys + after.Keys && id in todo && todo <= fired
    ensures RefreshOffers(RefreshOffers(buildings, after, OfferTouched(before, after, fired - todo)), after,
                          OfferEnds(ChangeOf(before, after, id)))
         == RefreshOffers(buildings, after, OfferTouched(before, after, fired - (todo - {id})))
  {
    assert OfferTouched(before, after, fired - (todo - {id}))
        == OfferTouched(before, after, fired - todo) + OfferEnds(ChangeOf(before, after, id));
  }

  /** The row was not in the building before, and is now. */
  predicate Joins(change: RowChange<Resident>, b: Id) {
    !change.Deleted? && b == change.new_.building && (change.Updated? ==> change.old_.building != b)
  }

  /** The row was in the building before, and is no longer. */
  predicate Quits(change: RowChange<Resident>, b: Id) {
    !change.Inserted? && b == change.old_.building && (change.Updated? ==> change.new_.building != b)
  }

  predicate IsIn(change: RowChange<Offer>, b: Id) { !change.Deleted? && b == change.new_.building }

  predicate WasIn(change: RowChange<Offer>, b: Id) { !change.Inserted? && b == change.old_.building }

  class Database {
    var buildings: map<Id, Building>
    var residents: map<Id, Resident>
    var offers: map<Id, Offer>
    var participants: map<Id, Participant>

    ghost function Snapshot(): Db
      reads this
    {
      Db(buildings, residents, offers, participants)
    }

    /** UPDATE buildings SET resident_count = (SELECT COUNT(*) ...) WHERE id = b */
    method UpdateResidentCount(b: Id)
      modifies this`buildings
      ensures buildings == RefreshResidents(old(buildings), residents, {b})
    {
      if b in buildings {
        buildings := buildings[b := buildings[b].(residentCount := |ResidentRows(residents, b)|)];
      }
    }

    /** UPDATE buildings SET active_offers = (SELECT COUNT(*) ...) WHERE id = b */
    method UpdateActiveOffers(b: Id)
      modifies this`buildings
      ensures buildings == RefreshOffers(old(buildings), offers, {b})
    {
      if b in buildings {
        buildings := buildings[b := buildings[b].(activeOffers := |ActiveOfferRows(offers, b)|)];
      }
    }

    method SyncBuildingResidentCount(change: RowChange<Resident>)
      modifies this`buildings
      ensures buildings == RefreshResidents(old(buildings), residents, ResidentEnds(change))
      ensures buildings.Keys == old(buildings.Keys)
      ensures forall b | b in buildings && (Joins(change, b) || Quits(change, b)) ::
        buildings[b] == old(buildings)[b].(residentCount := |LivingIn(residents, b)|)
      ensures forall b | b in buildings && !Joins(change, b) && !Quits(change, b) ::
        buildings[b] == old(buildings)[b]
    {
      TriggersSelect(residents, offers);
      match change {
        case Inserted(n) => UpdateResidentCount(n.building);
        case Deleted(o) => UpdateResidentCount(o.building);
        case Updated(o, n) =>
          if o.building != n.building {
            UpdateResidentCount(o.building);
            UpdateResidentCount(n.building);
          }
      }
    }

    method SyncBuildingActiveOffers(change: RowChange<Offer>)
      modifies this`buildings
      ensures buildings == RefreshOffers(old(buildings), offers, OfferEnds(change))
      ensures buildings.Keys == old(buildings.Keys)
      ensures forall b | b in buildings && (IsIn(change, b) || WasIn(change, b)) ::
        buildings[b] == old(buildings)[b].(activeOffers := |PendingOrActive(offers, b)|)
      ensures forall b | b in buildings && !IsIn(change, b) && !WasIn(change, b) ::
        buildings[b] == old(buildings)[b]
    {
      TriggersSelect(residents, offers);
      var building := if change.Deleted? then change.old_.building else change.new_.building;
      UpdateActiveOffers(building);
      if change.Updated? && change.old_.building != change.new_.building {
        UpdateActiveOffers(change.old_.building);
      }
    }

    /** Write the rows, then fire the row triggers in any order. */
    method WriteResidents(s: Statement<Resident>)
      requires s.Insert? ==> s.rows.Keys !! residents.Keys
      modifies this`buildings, this`residents
      ensures Snapshot() == SetResidents(old(Snapshot()), s)
    {
      var before := residents;
      residents := After(before, s);
      var todo := Fired(before, s);
      assert Fired(before, s) <= before.Keys + residents.Keys;
      while todo != {}
        invariant residents == After(before, s) && todo <= Fired(before, s)
        invariant buildings == RefreshResidents(old(buildings), residents,
                                 ResidentTouched(before, residents, Fired(before, s) - todo))
      {
        var id :| id in todo;
        ResidentsTouchedOneMore(old(buildings), before, residents, Fired(before, s), todo, id);
        SyncBuildingResidentCount(ChangeOf(before, residents, id));
        todo := todo - {id};
      }
      assert Fired(before, s) - todo == Fired(before, s);
    }

    /** An INSERT, UPDATE or DELETE on building_residents. */
    method ExecuteOnResidents(s: Statement<Resident>) returns (outcome: Outcome)
      modifies this`buildings, this`residents
      ensures (Snapshot(), outcome) == Step(old(Snapshot()), ResidentStatement(s))
    {
      var clash := s.Insert? && !(s.rows.Keys !! residents.Keys);
      var written := Written(residents, s);
      if clash || exists id | id in written :: written[id].building !in buildings {
        return Refused;
      }
      WriteResidents(s);
      return Done;
    }

    /** A statement on offers whose rows are already in table form. */
    method WriteOffers(s: Statement<Offer>)
      requires s.Insert? ==> s.rows.Keys !! offers.Keys
      modifies this`buildings, this`offers
      ensures Snapshot() == SetOffers(old(Snapshot()), s)
    {
      var before := offers;
      offers := After(before, s);
      var todo := Fired(before, s);
      assert Fired(before, s) <= before.Keys + offers.Keys;
      while todo != {}
        invariant offers == After(before, s) && todo <= Fired(before, s)
        invariant buildings == RefreshOffers(old(buildings), offers,
                                 OfferTouched(before, offers, Fired(before, s) - todo))
      {
        var id :| id in todo;
        OffersTouchedOneMore(old(buildings), before, offers, Fired(before, s), todo, id);
        SyncBuildingActiveOffers(ChangeOf(before, offers, id));
        todo := todo - {id};
      }
      assert Fired(before, s) - todo == Fired(before, s);
    }

    method ExecuteOnOffers(s: Statement<OfferColumns>) returns (outcome: Outcome)
      modifies this`buildings, this`offers, this`participants
      ensures (Snapshot(), outcome) == Step(old(Snapshot()), OfferStatement(s))
    {
      var rows := OfferRows(offers, s);
      var clash := rows.Insert? && !(rows.rows.Keys !! offers.Keys);
      var written := Written(offers, rows);
      if clash || exists id | id in written :: written[id].building !in buildings {
        return Refused;
      }
      if rows.Delete? {
        participants := participants - (set p | p in participants && participants[p].offer in rows.ids);
      }
      WriteOffers(rows);
      return Done;
    }

    /** The UPDATE of one offer's counter, which fires the offers trigger. */
    method UpdateCounter(offer: Id, n: int)
      requires offer in offers
      modifies this`buildings, this`offers
      ensures Snapshot() == SetCounter(old(Snapshot()), offer, n)
    {
      WriteOffers(Update(map[offer := offers[offer].(current := n)]));
    }

    /** join_offer: insert the row, then the guarded increment; roll back when it updates nothing. */
    method JoinOffer(pid: Id, user: Id, offer: Id, units: int) returns (outcome: Outcome)
      modifies this
      ensures (Snapshot(), outcome) == Step(old(Snapshot()), Join(pid, user, offer, units))
    {
      if pid in participants || Rows(participants, user, offer) != {} || offer !in offers {
        return Refused;
      }
      var saved := participants;
      participants := participants[pid := Participant(offer, user, units)];
      if OpenStatus(offers[offer].status) && offers[offer].current < offers[offer].capacity {
        UpdateCounter(offer, offers[offer].current + units);
        return Done;
      }
      participants := saved;
      return Refused;
    }

    /** join_offer_atomic: insert or ignore, then an increment without a capacity guard. */
    method JoinOfferAtomic(pid: Id, user: Id, offer: Id, units: int) returns (outcome: Outcome)
      modifies this
      ensures (Snapshot(), outcome) == Step(old(Snapshot()), JoinAtomic(pid, user, offer, units))
    {
      if Rows(participants, user, offer) != {} {
        return AlreadyJoined;
      }
      if pid in participants || offer !in offers {
        return Refused;
      }
      var saved := participants;
      participants := participants[pid := Participant(offer, user, units)];
      if OpenStatus(offers[offer].status) {
        UpdateCounter(offer, offers[offer].current + units);
        return Done;
      }
      participants := saved;
      return Refused;
    }

    /** SELECT unit_count FROM offer_participants ..., or one when there is no row */
    method ReadUnits(user: Id, offer: Id) returns (held: int)
      requires OneRowPerUser(participants)
      ensures held == UnitsHeld(participants, user, offer)
    {
      var mine := Rows(participants, user, offer);
      if mine == {} {
        return 1;
      }
      var p :| p in mine;
      assert mine == {p};
      return participants[p].units;
    }

    /** leave_offer: the units held, the delete, and the floored decrement. */
    method LeaveOffer(user: Id, offer: Id)
      requires OneRowPerUser(participants)
      modifies this
      ensures Snapshot() == Step(old(Snapshot()), Leave(user, offer)).0
    {
      var held := ReadUnits(user, offer);
      participants := participants - Rows(participants, user, offer);
      assert Snapshot() == old(Snapshot()).(participants := participants);
      if offer in offers {
        UpdateCounter(offer, Max(0, offers[offer].current - held));
      }
    }

    method BackfillResidentCounts()
      modifies this`buildings
      ensures buildings == RefreshResidents(old(buildings), residents, old(buildings).Keys)
    {
      var todo := buildings.Keys;
      while todo != {}
        invariant todo <= old(buildings).Keys
        invariant buildings == RefreshResidents(old(buildings), residents, old(buildings).Keys - todo)
      {
        var b :| b in todo;
        UpdateResidentCount(b);
        todo := todo - {b};
      }
    }

    method BackfillActiveOffers()
      modifies this`buildings
      ensures buildings == RefreshOffers(old(buildings), offers, old(buildings).Keys)
    {
      var todo := buildings.Keys;
      while todo != {}
        invariant todo <= old(buildings).Keys
        invariant buildings == RefreshOffers(old(buildings), offers, old(buildings).Keys - todo)
      {
        var b :| b in todo;
        UpdateActiveOffers(b);
        todo := todo - {b};
      }
    }

    /** The migration's two back-fill statements. */
    method Backfill()
      modifies this`buildings
      ensures Snapshot() == Backfilled(old(Snapshot()))
    {
      BackfillResidentCounts();
      BackfillActiveOffers();
    }
  }
}
