/**
 * The five handlers of the parking controller as functions of the two
 * collections they work on: the lot store (id to lot) and the record store
 * (parking records in storage order). Each handler returns its response
 * together with the store it leaves behind.
 */
module ParkingController {
  import opened Wrappers
  import opened Responses
  import opened ParkingSchema
  import opened ParkingLotSchema
  import opened Sorting

  type LotStore = map<string, Lot>
  type RecordStore = seq<Record>

  /** Response bodies of the successful handlers. */
  datatype LotView = LotView(id: string, capacity: int, isActive: bool)
  datatype ParkView = ParkView(slotNumber: int, status: Status)
  datatype LeaveView = LeaveView(slotNumber: int, registrationNumber: string, status: Status)
  datatype RegistrationView = RegistrationView(color: Color, registrationNumber: string)

  /** A handler's response and the store after it ran. */
  datatype Handled<+T, +S> = Handled(response: Response<T>, store: S)

  /** JavaScript truthiness of a string field: absent and "" are both falsy. */
  predicate Present(field: Option<string>) {
    field.Some? && field.value != ""
  }

  /** The controller's own plate pattern `^[A-Z]{2}\d{2}[A-Z]{1,2}\d{4}$`. */
  predicate ControllerPlate(s: string) {
    PlateMatches(s, 4, 4)
  }

  /** The controller's capacity guard `capacity < 0 || capacity > 2000`. */
  predicate CapacityGuardRejects(capacity: int) {
    capacity < 0 || capacity > 2000
  }

  /** Every plate the controller admits also satisfies the schema's validator. */
  lemma ControllerPlateIsSchemaPlate(s: string)
    requires ControllerPlate(s)
    ensures SchemaPlate(s)
  {
  }

  /** For an integer capacity the controller's guard and the schema's min/max agree. */
  lemma CapacityGuardIsSchemaRange(capacity: int)
    ensures !CapacityGuardRejects(capacity) <==> CapacityValid(Some(capacity))
  {
  }

  // ---------------------------------------------------------------- store invariant

  predicate IsParkedIn(r: Record, lotId: string) {
    r.lotId == lotId && r.status == Parked
  }

  /**
   * What every reachable store satisfies: lots are schema-valid and active;
   * records are schema-valid, PARKED, in a known lot, with a slot of at least 1.
   */
  ghost predicate StoreValid(lots: LotStore, records: RecordStore) {
    && (forall id :: id in lots ==> id != "" && LotValid(lots[id]) && lots[id].isActive)
    && (forall i :: 0 <= i < |records| ==>
          && RecordValid(records[i])
          && records[i].status == Parked
          && records[i].slotNumber >= 1
          && records[i].lotId in lots)
  }

  // ---------------------------------------------------------------- createParkingLot

  function CreateParkingLot(lots: LotStore, id: Option<string>, capacity: Option<int>)
    : (h: Handled<LotView, LotStore>)
    ensures !Present(id) ==> h.response == Fail(IdRequired)
    ensures Present(id) && capacity.Some? && CapacityGuardRejects(capacity.value) ==>
              h.response == Fail(CapacityOutOfRange)
    ensures h.response.Ok? <==> Present(id) && CapacityValid(capacity) && id.value !in lots
    ensures h.response.Ok? ==>
              && h.response.value == LotView(id.value, capacity.value, true)
              && h.store == lots[id.value := NewLot(capacity.value)]
    ensures !h.response.Ok? ==> h.response.Fail? && h.store == lots
    ensures h.response.HttpStatus() == 400 <==> !(Present(id) && CapacityValid(capacity) && id.value !in lots)
    ensures h.response.IsSuccess() <==> h.response.HttpStatus() == 200
  {
    if !Present(id) then
      Handled(Fail(IdRequired), lots)
    else if capacity.Some? && CapacityGuardRejects(capacity.value) then
      Handled(Fail(CapacityOutOfRange), lots)
    else if capacity.None? then
      // the controller's comparisons let an absent capacity through; the schema's `required` does not
      Handled(Fail(CapacityRequired), lots)
    else if id.value in lots then
      Handled(Fail(DuplicateLotId), lots)
    else
      Handled(Ok(LotView(id.value, capacity.value, true)), lots[id.value := NewLot(capacity.value)])
  }

  lemma CreateParkingLotPreservesStore(lots: LotStore, records: RecordStore, id: Option<string>, capacity: Option<int>)
    requires StoreValid(lots, records)
    ensures StoreValid(CreateParkingLot(lots, id, capacity).store, records)
  {
  }

  // ---------------------------------------------------------------- slot rule

  /**
   * The smallest slot number among the lot's PARKED records, or None when the lot
   * has none: what `findOne({parkingLotId, status: "PARKED"}).sort({slotNumber: 1})`
   * reads.
   */
  function MinParkedSlot(records: RecordStore, lotId: string): (m: Option<int>)
    ensures m.None? <==> forall i :: 0 <= i < |records| ==> !IsParkedIn(records[i], lotId)
    ensures m.Some? ==> exists i :: 0 <= i < |records| && IsParkedIn(records[i], lotId) && records[i].slotNumber == m.value
    ensures m.Some? ==> forall i :: 0 <= i < |records| && IsParkedIn(records[i], lotId) ==> m.value <= records[i].slotNumber
  {
    if records == [] then
      None
    else
      var rest := MinParkedSlot(records[1..], lotId);
      assert forall i :: 1 <= i < |records| ==> records[i] == records[1..][i - 1];
      if !IsParkedIn(records[0], lotId) then
        rest
      else if rest.None? || records[0].slotNumber <= rest.value then
        Some(records[0].slotNumber)
      else
        rest
  }

  /**
   * The slot a new arrival in `lotId` receives: 1 when the lot has no PARKED record,
   * otherwise the smallest PARKED slot plus one. Other lots and the lot's capacity play
   * no part, and the result need not be free.
   */
  function NextSlot(records: RecordStore, lotId: string): (slot: int)
    ensures (forall i :: 0 <= i < |records| ==> !IsParkedIn(records[i], lotId)) ==> slot == 1
    ensures (exists i :: 0 <= i < |records| && IsParkedIn(records[i], lotId)) ==>
              && (exists i :: 0 <= i < |records| && IsParkedIn(records[i], lotId) && slot == records[i].slotNumber + 1)
              && (forall i :: 0 <= i < |records| && IsParkedIn(records[i], lotId) ==> slot <= records[i].slotNumber + 1)
  {
    var nearest := MinParkedSlot(records, lotId);
    if nearest.None? then 1 else nearest.value + 1
  }

  /** The slot numbers of the lot's PARKED records. */
  ghost function ParkedSlots(records: RecordStore, lotId: string): set<int> {
    set i | 0 <= i < |records| && IsParkedIn(records[i], lotId) :: records[i].slotNumber
  }

  /** The slot rule depends on nothing but the set of slots PARKED in the lot. */
  lemma NextSlotDependsOnlyOnParkedSlots(a: RecordStore, b: RecordStore, lotId: string)
    requires ParkedSlots(a, lotId) == ParkedSlots(b, lotId)
    ensures NextSlot(a, lotId) == NextSlot(b, lotId)
  {
    var sa, sb := NextSlot(a, lotId), NextSlot(b, lotId);
    if exists i :: 0 <= i < |a| && IsParkedIn(a[i], lotId) {
      var i :| 0 <= i < |a| && IsParkedIn(a[i], lotId) && sa == a[i].slotNumber + 1;
      assert a[i].slotNumber in ParkedSlots(b, lotId);
      var j :| 0 <= j < |b| && IsParkedIn(b[j], lotId) && b[j].slotNumber == a[i].slotNumber;
      var j' :| 0 <= j' < |b| && IsParkedIn(b[j'], lotId) && sb == b[j'].slotNumber + 1;
      assert b[j'].slotNumber in ParkedSlots(a, lotId);
      var i' :| 0 <= i' < |a| && IsParkedIn(a[i'], lotId) && a[i'].slotNumber == b[j'].slotNumber;
      assert sb <= sa && sa <= sb;
    } else {
      assert ParkedSlots(a, lotId) == {};
      if exists j :: 0 <= j < |b| && IsParkedIn(b[j], lotId) {
        var j :| 0 <= j < |b| && IsParkedIn(b[j], lotId);
        assert b[j].slotNumber in ParkedSlots(b, lotId);
      }
    }
  }

  // ---------------------------------------------------------------- parkCar

  /** All checks `parkCar` makes before it stores a record. */
  predicate ParkAdmitted(lots: LotStore, lotId: Option<string>, reg: Option<string>, color: Option<string>) {
    && Present(lotId)
    && reg.Some? && ControllerPlate(reg.value)
    && color.Some? && ParseColor(color.value).Some?
    && lotId.value in lots && lots[lotId.value].isActive
  }

  function ParkCar(lots: LotStore, records: RecordStore, lotId: Option<string>, reg: Option<string>, color: Option<string>)
    : (h: Handled<ParkView, RecordStore>)
    ensures !Present(lotId) ==> h.response == Fail(ParkingLotIdRequired)
    ensures Present(lotId) && !(reg.Some? && ControllerPlate(reg.value)) ==>
              h.response == Fail(InvalidRegistration)
    ensures Present(lotId) && reg.Some? && ControllerPlate(reg.value) && !(color.Some? && ParseColor(color.value).Some?) ==>
              h.response == Fail(InvalidColor)
    ensures Present(lotId) && reg.Some? && ControllerPlate(reg.value) && color.Some? && ParseColor(color.value).Some? &&
            !(lotId.value in lots && lots[lotId.value].isActive) ==>
              h.response == Fail(InvalidOrInactiveLot)
    ensures h.response.Ok? <==> ParkAdmitted(lots, lotId, reg, color)
    ensures !h.response.Ok? ==> h.response.Fail? && h.store == records
    ensures h.response.HttpStatus() == 400 <==> !ParkAdmitted(lots, lotId, reg, color)
    ensures h.response.IsSuccess() <==> h.response.HttpStatus() == 200
    ensures h.response.Ok? ==>
              var slot := NextSlot(records, lotId.value);
              && h.response.value == ParkView(slot, Parked)
              && h.store == records + [Record(lotId.value, reg.value, ParseColor(color.value).value, slot, Parked)]
  {
    if !Present(lotId) then
      Handled(Fail(ParkingLotIdRequired), records)
    else if reg.None? || !ControllerPlate(reg.value) then
      Handled(Fail(InvalidRegistration), records)
    else if color.None? || ParseColor(color.value).None? then
      Handled(Fail(InvalidColor), records)
    else if lotId.value !in lots || !lots[lotId.value].isActive then
      Handled(Fail(InvalidOrInactiveLot), records)
    else
      var slot := NextSlot(records, lotId.value);
      Handled(Ok(ParkView(slot, Parked)),
              records + [NewRecord(lotId.value, reg.value, ParseColor(color.value).value, slot)])
  }

  /** Parking keeps the store invariant; in particular every stored slot stays at least 1. */
  lemma ParkCarPreservesStore(lots: LotStore, records: RecordStore, lotId: Option<string>, reg: Option<string>, color: Option<string>)
    requires StoreValid(lots, records)
    ensures StoreValid(lots, ParkCar(lots, records, lotId, reg, color).store)
  {
  }

  // ---------------------------------------------------------------- leaveCar

  predicate IsParkedCar(r: Record, lotId: string, reg: string) {
    IsParkedIn(r, lotId) && r.registrationNumber == reg
  }

  /** The first record in storage order that `findOneAndDelete({parkingLotId, registrationNumber, status: "PARKED"})` matches. */
  function FindParkedCar(records: RecordStore, lotId: string, reg: string): (found: Option<nat>)
    ensures found.None? <==> forall i :: 0 <= i < |records| ==> !IsParkedCar(records[i], lotId, reg)
    ensures found.Some? ==>
              && found.value < |records|
              && IsParkedCar(records[found.value], lotId, reg)
              && forall i :: 0 <= i < found.value ==> !IsParkedCar(records[i], lotId, reg)
  {
    if records == [] then
      None
    else if IsParkedCar(records[0], lotId, reg) then
      Some(0)
    else
      var rest := FindParkedCar(records[1..], lotId, reg);
      assert forall i :: 1 <= i < |records| ==> records[i] == records[1..][i - 1];
      if rest.None? then None else Some(rest.value + 1)
  }

  /** Drops the record at index `i`, keeping the others in order. */
  function RemoveAt(records: RecordStore, i: nat): (rest: RecordStore)
    requires i < |records|
    ensures |rest| == |records| - 1
    ensures forall j :: 0 <= j < i ==> rest[j] == records[j]
    ensures forall j :: i <= j < |rest| ==> rest[j] == records[j + 1]
    ensures multiset(rest) + multiset{records[i]} == multiset(records)
  {
    assert records == records[..i] + [records[i]] + records[i + 1..];
    records[..i] + records[i + 1..]
  }

  function LeaveCar(records: RecordStore, lotId: Option<string>, reg: Option<string>)
    : (h: Handled<LeaveView, RecordStore>)
    ensures !Present(lotId) || !Present(reg) ==> h.response == Fail(LeaveFieldsRequired)
    ensures Present(lotId) && Present(reg) && !ControllerPlate(reg.value) ==>
              h.response == Fail(InvalidRegistration)
    ensures Present(lotId) && Present(reg) && ControllerPlate(reg.value) &&
            (forall i :: 0 <= i < |records| ==> !IsParkedCar(records[i], lotId.value, reg.value)) ==>
              h.response == Fail(CarNotFound)
    ensures h.response.Ok? <==>
              && Present(lotId) && Present(reg) && ControllerPlate(reg.value)
              && exists i :: 0 <= i < |records| && IsParkedCar(records[i], lotId.value, reg.value)
    ensures !h.response.Ok? ==> h.response.Fail? && h.store == records
    ensures h.response.HttpStatus() == 400 <==>
              || !Present(lotId) || !Present(reg) || !ControllerPlate(reg.value)
              || forall i :: 0 <= i < |records| ==> !IsParkedCar(records[i], lotId.value, reg.value)
    ensures h.response.IsSuccess() <==> h.response.HttpStatus() == 200
    ensures h.response.Ok? ==>
              exists i ::
                && 0 <= i < |records| && IsParkedCar(records[i], lotId.value, reg.value)
                && h.response.value == LeaveView(records[i].slotNumber, records[i].registrationNumber, Left)
                && h.store == RemoveAt(records, i)
  {
    if !Present(lotId) || !Present(reg) then
      Handled(Fail(LeaveFieldsRequired), records)
    else if !ControllerPlate(reg.value) then
      Handled(Fail(InvalidRegistration), records)
    else
      var found := FindParkedCar(records, lotId.value, reg.value);
      if found.None? then
        Handled(Fail(CarNotFound), records)
      else
        var car := records[found.value];
        Handled(Ok(LeaveView(car.slotNumber, car.registrationNumber, Left)), RemoveAt(records, found.value))
  }

  lemma LeaveCarPreservesStore(lots: LotStore, records: RecordStore, lotId: Option<string>, reg: Option<string>)
    requires StoreValid(lots, records)
    ensures StoreValid(lots, LeaveCar(records, lotId, reg).store)
  {
  }

  // ---------------------------------------------------------------- colour queries

  predicate MatchesQuery(r: Record, lotId: string, color: string) {
    IsParkedIn(r, lotId) && ColorName(r.color) == color
  }

  /** What `Parking.find({parkingLotId, color, status: "PARKED"})` returns, in storage order. */
  function Matching(records: RecordStore, lotId: string, color: string): (m: RecordStore)
    ensures forall r :: multiset(m)[r] == if MatchesQuery(r, lotId, color) then multiset(records)[r] else 0
    ensures m == [] <==> forall i :: 0 <= i < |records| ==> !MatchesQuery(records[i], lotId, color)
  {
    if records == [] then
      []
    else
      var rest := Matching(records[1..], lotId, color);
      assert records == [records[0]] + records[1..];
      assert forall i :: 1 <= i < |records| ==> records[i] == records[1..][i - 1];
      if MatchesQuery(records[0], lotId, color) then [records[0]] + rest else rest
  }

  /** The `{color, registrationNumber}` object the registrations query lists for a record. */
  function RegistrationOf(r: Record): (v: RegistrationView)
    ensures v.color == r.color && v.registrationNumber == r.registrationNumber
  {
    RegistrationView(r.color, r.registrationNumber)
  }

  function SlotNumbers(m: RecordStore): (slots: seq<int>)
    ensures |slots| == |m|
    ensures forall i :: 0 <= i < |m| ==> slots[i] == m[i].slotNumber
  {
    if m == [] then [] else [m[0].slotNumber] + SlotNumbers(m[1..])
  }

  function GetRegistrationNumbersByColor(records: RecordStore, color: Option<string>, lotId: Option<string>)
    : (r: Response<seq<RegistrationView>>)
    ensures r.Fail? <==> !Present(color) || !Present(lotId)
    ensures r.Fail? ==> r.error == QueryFieldsRequired
    ensures r.NoData? <==>
              && Present(color) && Present(lotId)
              && forall i :: 0 <= i < |records| ==> !MatchesQuery(records[i], lotId.value, color.value)
    ensures r.NoData? ==> r.color == color.value
    ensures r.HttpStatus() == 400 <==> !Present(color) || !Present(lotId)
    ensures r.NoData? ==> r.HttpStatus() == 200 && !r.IsSuccess()
    ensures r.Ok? ==>
              var m := Matching(records, lotId.value, color.value);
              |r.value| == |m| && forall i :: 0 <= i < |m| ==> r.value[i] == RegistrationOf(m[i])
  {
    if !Present(color) || !Present(lotId) then
      Fail(QueryFieldsRequired)
    else
      var parkedCars := Matching(records, lotId.value, color.value);
      if parkedCars == [] then
        NoData(color.value)
      else
        Ok(seq(|parkedCars|, i requires 0 <= i < |parkedCars| => RegistrationOf(parkedCars[i])))
  }

  function GetSlotNumbersByColor(records: RecordStore, color: Option<string>, lotId: Option<string>)
    : (r: Response<seq<int>>)
    ensures r.Fail? <==> !Present(color) || !Present(lotId)
    ensures r.Fail? ==> r.error == QueryFieldsRequired
    ensures r.NoData? <==>
              && Present(color) && Present(lotId)
              && forall i :: 0 <= i < |records| ==> !MatchesQuery(records[i], lotId.value, color.value)
    ensures r.NoData? ==> r.color == color.value
    ensures r.HttpStatus() == 400 <==> !Present(color) || !Present(lotId)
    ensures r.NoData? ==> r.HttpStatus() == 200 && !r.IsSuccess()
    ensures r.Ok? ==>
              && Sorted(r.value)
              && multiset(r.value) == multiset(SlotNumbers(Matching(records, lotId.value, color.value)))
  {
    if !Present(color) || !Present(lotId) then
      Fail(QueryFieldsRequired)
    else
      var parkedCars := Matching(records, lotId.value, color.value);
      if parkedCars == [] then
        NoData(color.value)
      else
        Ok(SortAscending(SlotNumbers(parkedCars)))
  }
}
