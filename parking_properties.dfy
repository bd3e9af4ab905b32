/** Properties that relate several handler calls, and worked scenarios of the slot rule. */
module ParkingProperties {
  import opened Wrappers
  import opened Responses
  import opened ParkingSchema
  import opened ParkingLotSchema
  import opened Sorting
  import opened ParkingController

  /**
   * Park a car that is not yet parked, then leave twice: the first leave returns the
   * slot the park assigned and restores the record store; the second finds nothing.
   */
  lemma ParkThenLeaveTwice(lots: LotStore, records: RecordStore, lotId: string, reg: string, color: string)
    requires ParkAdmitted(lots, Some(lotId), Some(reg), Some(color))
    requires forall i :: 0 <= i < |records| ==> !IsParkedCar(records[i], lotId, reg)
    ensures
      var parked := ParkCar(lots, records, Some(lotId), Some(reg), Some(color));
      var left := LeaveCar(parked.store, Some(lotId), Some(reg));
      var again := LeaveCar(left.store, Some(lotId), Some(reg));
      && parked.response.Ok?
      && left.response == Ok(LeaveView(parked.response.value.slotNumber, reg, Left))
      && left.store == records
      && again.response == Fail(CarNotFound)
  {
    var parked := ParkCar(lots, records, Some(lotId), Some(reg), Some(color));
    var s := parked.store;
    assert s[|records|].slotNumber == parked.response.value.slotNumber;
    assert IsParkedCar(s[|records|], lotId, reg);
    assert forall i :: 0 <= i < |records| ==> s[i] == records[i];
    var found := FindParkedCar(s, lotId, reg);
    assert found == Some(|records|);
    assert RemoveAt(s, |records|) == records;
  }

  /** Leaving removes one matching record and keeps every other record, in order. */
  lemma LeaveRemovesExactlyOne(records: RecordStore, lotId: Option<string>, reg: Option<string>)
    requires LeaveCar(records, lotId, reg).response.Ok?
    ensures
      var h := LeaveCar(records, lotId, reg);
      && |h.store| == |records| - 1
      && exists i ::
           && 0 <= i < |records| && IsParkedCar(records[i], lotId.value, reg.value)
           && multiset(h.store) + multiset{records[i]} == multiset(records)
           && h.store == records[..i] + records[i + 1..]
           && h.response.value.slotNumber == records[i].slotNumber
           && h.response.value.registrationNumber == reg.value
  {
  }

  /** The slot a park assigns depends only on the slots already PARKED in that lot:
      neither the lot's capacity nor other lots' records change it. */
  lemma ParkSlotIgnoresCapacityAndOtherLots(
    lots1: LotStore, lots2: LotStore, records1: RecordStore, records2: RecordStore,
    lotId: string, reg: string, color: string)
    requires ParkAdmitted(lots1, Some(lotId), Some(reg), Some(color))
    requires lotId in lots2 && lots2[lotId].isActive
    requires ParkedSlots(records1, lotId) == ParkedSlots(records2, lotId)
    ensures ParkCar(lots1, records1, Some(lotId), Some(reg), Some(color)).response
         == ParkCar(lots2, records2, Some(lotId), Some(reg), Some(color)).response
  {
    NextSlotDependsOnlyOnParkedSlots(records1, records2, lotId);
  }

  /**
   * In a fresh lot of capacity 1, three valid parks get slots 1, 2 and 2: the capacity is
   * never consulted and two PARKED records end up sharing slot 2.
   */
  lemma SlotsRepeatInFreshLot(lotId: string, reg1: string, reg2: string, reg3: string, c1: string, c2: string, c3: string)
    requires lotId != ""
    requires ControllerPlate(reg1) && ControllerPlate(reg2) && ControllerPlate(reg3)
    requires ParseColor(c1).Some? && ParseColor(c2).Some? && ParseColor(c3).Some?
    ensures
      var lots := map[lotId := NewLot(1)];
      var p1 := ParkCar(lots, [], Some(lotId), Some(reg1), Some(c1));
      var p2 := ParkCar(lots, p1.store, Some(lotId), Some(reg2), Some(c2));
      var p3 := ParkCar(lots, p2.store, Some(lotId), Some(reg3), Some(c3));
      && p1.response == Ok(ParkView(1, Parked))
      && p2.response == Ok(ParkView(2, Parked))
      && p3.response == Ok(ParkView(2, Parked))
      && |p3.store| == 3 && p3.store[1].slotNumber == p3.store[2].slotNumber
  {
    var lots := map[lotId := NewLot(1)];
    var p1 := ParkCar(lots, [], Some(lotId), Some(reg1), Some(c1));
    assert p1.response == Ok(ParkView(1, Parked));
    assert IsParkedIn(p1.store[0], lotId) && p1.store[0].slotNumber == 1;
    var p2 := ParkCar(lots, p1.store, Some(lotId), Some(reg2), Some(c2));
    assert p2.response == Ok(ParkView(2, Parked));
    assert p2.store[0] == p1.store[0];
    assert IsParkedIn(p2.store[1], lotId) && p2.store[1].slotNumber == 2;
    assert NextSlot(p2.store, lotId) == 2;
  }

  /** When every record matches the query, the query keeps the whole store, in order. */
  lemma {:induction false} MatchingKeepsAllWhenAllMatch(records: RecordStore, lotId: string, color: string)
    requires forall i :: 0 <= i < |records| ==> MatchesQuery(records[i], lotId, color)
    ensures Matching(records, lotId, color) == records
  {
    if records != [] {
      MatchingKeepsAllWhenAllMatch(records[1..], lotId, color);
      assert records == [records[0]] + records[1..];
    }
  }

  /** Sorting the slots 3, 1, 2 gives 1, 2, 3: the only ascending arrangement of them. */
  lemma SortThreeOneTwo(slots: seq<int>)
    requires slots == [3, 1, 2]
    ensures SortAscending(slots) == [1, 2, 3]
  {
    assert multiset(slots) == multiset([1, 2, 3]);
    assert Sorted([1, 2, 3]);
    SortedPermutationUnique(SortAscending(slots), [1, 2, 3]);
  }

  /** When every record matches a non-empty query, the slot query sorts all their slots. */
  lemma {:induction false} SlotQueryOfAllMatching(records: RecordStore, lotId: string, color: string)
    requires lotId != "" && color != "" && |records| > 0
    requires forall k :: 0 <= k < |records| ==> MatchesQuery(records[k], lotId, color)
    ensures GetSlotNumbersByColor(records, Some(color), Some(lotId)) == Ok(SortAscending(SlotNumbers(records)))
  {
    MatchingKeepsAllWhenAllMatch(records, lotId, color);
    assert Matching(records, lotId, color) != [];
  }

  /** Three cars of one lot and colour at slots 3, 1, 2: the slot query answers [1, 2, 3]. */
  lemma {:induction false} SlotQueryIsAscending(records: RecordStore, lotId: string, color: string)
    requires lotId != "" && color != "" && |records| == 3
    requires forall k :: 0 <= k < 3 ==> MatchesQuery(records[k], lotId, color)
    requires records[0].slotNumber == 3 && records[1].slotNumber == 1 && records[2].slotNumber == 2
    ensures GetSlotNumbersByColor(records, Some(color), Some(lotId)) == Ok([1, 2, 3])
  {
    SlotQueryOfAllMatching(records, lotId, color);
    var slots := SlotNumbers(records);
    assert slots == [3, 1, 2] by {
      assert |slots| == 3 && slots[0] == 3 && slots[1] == 1 && slots[2] == 2;
    }
    SortThreeOneTwo(slots);
  }

  /** The registrations query lists exactly the PARKED cars of that lot and colour,
      each carrying the queried colour. */
  lemma RegistrationsAreTheMatchingCars(records: RecordStore, color: string, lotId: string)
    requires color != "" && lotId != ""
    ensures
      var r := GetRegistrationNumbersByColor(records, Some(color), Some(lotId));
      r.Ok? ==>
        && (forall v :: v in r.value <==>
              exists i :: 0 <= i < |records| && MatchesQuery(records[i], lotId, color) && RegistrationOf(records[i]) == v)
        && (forall v :: v in r.value ==> ColorName(v.color) == color)
  {
    var r := GetRegistrationNumbersByColor(records, Some(color), Some(lotId));
    if r.Ok? {
      var m := Matching(records, lotId, color);
      forall v | v in r.value
        ensures exists i :: 0 <= i < |records| && MatchesQuery(records[i], lotId, color) && RegistrationOf(records[i]) == v
      {
        var k :| 0 <= k < |r.value| && r.value[k] == v;
        assert m[k] in multiset(m);
        assert m[k] in multiset(records);
        var i :| 0 <= i < |records| && records[i] == m[k];
      }
      forall i | 0 <= i < |records| && MatchesQuery(records[i], lotId, color)
        ensures RegistrationOf(records[i]) in r.value
      {
        assert records[i] in multiset(records);
        assert records[i] in multiset(m);
        var k :| 0 <= k < |m| && m[k] == records[i];
        assert r.value[k] == RegistrationOf(records[i]);
      }
    }
  }

  /** The schema's validator admits plates the controller rejects: a short trailing number. */
  lemma SchemaAdmitsShorterPlates()
    ensures SchemaPlate("KA05MH123") && !ControllerPlate("KA05MH123")
  {
  }
}
