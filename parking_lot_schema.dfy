/** The constraints the lot schema puts on a stored parking lot. */
module ParkingLotSchema {
  import opened Wrappers

  const MinCapacity: int := 0
  const MaxCapacity: int := 2000

  /** A lot document; its id is the key under which the lot store holds it. */
  datatype Lot = Lot(capacity: int, isActive: bool)

  /** `capacity` is required and lies in [MinCapacity, MaxCapacity]. */
  predicate CapacityValid(capacity: Option<int>) {
    capacity.Some? && MinCapacity <= capacity.value <= MaxCapacity
  }

  predicate LotValid(lot: Lot) {
    CapacityValid(Some(lot.capacity))
  }

  /** The document the schema builds from a capacity alone: `isActive` takes its default. */
  function NewLot(capacity: int): (lot: Lot)
    ensures lot.isActive
    ensures lot.capacity == capacity
  {
    Lot(capacity, true)
  }
}
