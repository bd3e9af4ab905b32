/**
 * The parking service as the controller runs it: one object holding the lot
 * collection and the parking-record collection, whose handlers update them in
 * place. Each handler is proved to answer and to leave the collections exactly
 * as the matching function of ParkingController says, and to keep the store
 * invariant.
 */
module ParkingService {
  import opened Wrappers
  import opened Responses
  import opened ParkingSchema
  import opened ParkingLotSchema
  import opened ParkingController

  class Service {
    var lots: LotStore
    var records: RecordStore

    ghost predicate Valid()
      reads this
    {
      StoreValid(lots, records)
    }

    constructor ()
      ensures Valid()
      ensures lots == map[] && records == []
    {
      lots := map[];
      records := [];
    }

    /** POST /api/ParkingLots */
    method CreateParkingLot(id: Option<string>, capacity: Option<int>) returns (r: Response<LotView>)
      requires Valid()
      modifies this
      ensures Valid()
      ensures Handled(r, lots) == ParkingController.CreateParkingLot(old(lots), id, capacity)
      ensures records == old(records)
    {
      CreateParkingLotPreservesStore(lots, records, id, capacity);
      if !Present(id) {
        return Fail(IdRequired);
      }
      if capacity.Some? && CapacityGuardRejects(capacity.value) {
        return Fail(CapacityOutOfRange);
      }
      // saving validates the document against the lot schema, then inserts it under its id
      if capacity.None? {
        return Fail(CapacityRequired);
      }
      if id.value in lots {
        return Fail(DuplicateLotId);
      }
      var lot := NewLot(capacity.value);
      lots := lots[id.value := lot];
      r := Ok(LotView(id.value, lot.capacity, true));
    }

    /** POST /api/Parkings */
    method ParkCar(lotId: Option<string>, reg: Option<string>, color: Option<string>) returns (r: Response<ParkView>)
      requires Valid()
      modifies this
      ensures Valid()
      ensures Handled(r, records) == ParkingController.ParkCar(old(lots), old(records), lotId, reg, color)
      ensures lots == old(lots)
    {
      ParkCarPreservesStore(lots, records, lotId, reg, color);
      if !Present(lotId) {
        return Fail(ParkingLotIdRequired);
      }
      if reg.None? || !ControllerPlate(reg.value) {
        return Fail(InvalidRegistration);
      }
      var c := if color.Some? then ParseColor(color.value) else None;
      if c.None? {
        return Fail(InvalidColor);
      }
      if lotId.value !in lots || !lots[lotId.value].isActive {
        return Fail(InvalidOrInactiveLot);
      }
      var slotNumber := NextSlot(records, lotId.value);
      records := records + [NewRecord(lotId.value, reg.value, c.value, slotNumber)];
      r := Ok(ParkView(slotNumber, Parked));
    }

    /** DELETE /api/Parkings */
    method LeaveCar(lotId: Option<string>, reg: Option<string>) returns (r: Response<LeaveView>)
      requires Valid()
      modifies this
      ensures Valid()
      ensures Handled(r, records) == ParkingController.LeaveCar(old(records), lotId, reg)
      ensures lots == old(lots)
    {
      LeaveCarPreservesStore(lots, records, lotId, reg);
      if !Present(lotId) || !Present(reg) {
        return Fail(LeaveFieldsRequired);
      }
      if !ControllerPlate(reg.value) {
        return Fail(InvalidRegistration);
      }
      var found := FindParkedCar(records, lotId.value, reg.value);
      if found.None? {
        return Fail(CarNotFound);
      }
      var deleted := records[found.value];
      records := records[..found.value] + records[found.value + 1..];
      r := Ok(LeaveView(deleted.slotNumber, deleted.registrationNumber, Left));
    }

    /** GET /api/Parkings: reads the record store and changes nothing. */
    method GetRegistrationNumbersByColor(color: Option<string>, lotId: Option<string>)
      returns (r: Response<seq<RegistrationView>>)
      ensures r == ParkingController.GetRegistrationNumbersByColor(records, color, lotId)
    {
      r := ParkingController.GetRegistrationNumbersByColor(records, color, lotId);
    }

    /** GET /api/Slots: reads the record store and changes nothing. */
    method GetSlotNumbersByColor(color: Option<string>, lotId: Option<string>) returns (r: Response<seq<int>>)
      ensures r == ParkingController.GetSlotNumbersByColor(records, color, lotId)
    {
      r := ParkingController.GetSlotNumbersByColor(records, color, lotId);
    }
  }
}
