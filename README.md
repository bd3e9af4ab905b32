# Parking lot service: slot allocation and occupancy

This project models the core of a single-process parking-lot service. A client
registers lots (an id and a capacity of 0 to 2000). It parks cars in a lot and
removes them again. It asks which cars of a given colour are parked in a lot, and
in which slots. Two collections hold all the state: the lots, keyed by id, and the
parking records (lot id, registration plate, colour, slot number, status).

The model has these modules:

- `Responses`: the response every handler returns. There are three outcomes:
  `Ok` (200, `isSuccess: true`), `NoData` (200, `isSuccess: false`, for a valid
  colour query that matches nothing) and `Fail` (400, `isSuccess: false`, with the
  reason).
- `ParkingSchema`: the constraints on a parking record. This covers the plate
  validator, the colour and status enumerations, and the PARKED default.
- `ParkingLotSchema`: the constraints on a lot. Capacity is required and lies in
  [0, 2000]; `isActive` defaults to true.
- `Sorting`: the numeric ascending sort that the slot query applies, written as an
  insertion sort.
- `ParkingController`: each of the five handlers as a pure function. It takes the
  stores and the request fields, and returns the response together with the store
  it leaves behind. The module also holds the slot rule, the invariant `StoreValid`
  that every reachable store satisfies, and proofs that each handler keeps it.
- `ParkingService`: the class `Service`. Its fields `lots` (a `map`) and `records`
  (a `seq`) are the two collections, which its handler methods update in place.
  Each method is proved to return and store exactly what the matching
  `ParkingController` function says, and to keep `Valid()`.
- `ParkingProperties`: facts that span several calls, plus worked scenarios of the
  slot rule and the slot query.

A request field the client may leave out is an `Option`. The controller tests
fields with JavaScript truthiness (`!x`). The model writes this as `Present`: the
field is there and is not the empty string.

The slot rule is modelled exactly as written. A new car gets slot 1 when the lot
has no PARKED record. Otherwise it gets the smallest PARKED slot in that lot plus
one. The rule never looks at capacity and does not avoid occupied slots.
`ParkingProperties.SlotsRepeatInFreshLot` shows a lot of capacity 1 whose first
three cars get slots 1, 2 and 2. The model therefore makes no claim that slots are
unique.

Points where the code's behaviour is easy to misread; the model follows the code:

- Park and leave accept exactly four trailing digits on a plate. The parking
  schema accepts one to four. `ParkingProperties.SchemaAdmitsShorterPlates` shows
  this gap, and `ParkingController.ControllerPlateIsSchemaPlate` proves that the
  controller's pattern is the stricter one.
- The colour queries do not check the colour against the enumeration. An unknown
  colour therefore gives `NoData`, not a 400.
- The controller lets an absent `capacity` through, because `undefined < 0` and
  `undefined > 2000` are both false. The lot schema's `required` rule then rejects
  it when the lot is saved (`CapacityRequired`).
- Creating a lot under an id that already exists fails, as the store's
  duplicate-key error does, and leaves the store unchanged.

## Model

| member | source | states |
|---|---|---|
| `Responses.Response.HttpStatus` | controllers/parkingController.js:154-160 | The status is 400 exactly for a rejected request. Both a success and an empty query result answer 200. The handlers' contracts state their status through it: each of create, park and leave answers 400 exactly when its own checks fail, and 200 exactly when `isSuccess` is true; each colour query answers 400 exactly when a field is missing, and its `NoData` answer is a 200 with `isSuccess: false`. |
| `ParkingLotSchema.NewLot` | models/parkingLot.js:10-13 | A lot built from a capacity alone is active (`isActive` defaults to true) and keeps that capacity. |
| `ParkingSchema.ParseColor` | models/parking.js:19-23 | Gives `Some(c)` exactly when the string spells colour `c`. Gives `None` exactly when it spells none of the seven colours. |
| `ParkingSchema.NewRecord` | models/parking.js:28-32 | A record created without a status gets PARKED. Every other field is as supplied. |
| `ParkingSchema.PlateMatchesIffParts` | models/parking.js:14 | The plate matcher accepts a string iff it splits, in order, into 2 capital letters, 2 digits, 1 or 2 capital letters, and `lo` to `hi` digits. |
| `ParkingController.ControllerPlateIsSchemaPlate` | controllers/parkingController.js:44 | Every plate the controller's pattern (exactly 4 trailing digits) accepts also passes the schema's validator (1 to 4 digits). |
| `ParkingController.CapacityGuardIsSchemaRange` | controllers/parkingController.js:12 | For an integer capacity, the controller's range guard and the schema's min 0 / max 2000 accept the same values. |
| `ParkingController.CreateParkingLot` | controllers/parkingController.js:5-34 | A missing id fails first, then a capacity outside [0, 2000]. Success happens iff the id is present, the capacity is present and in range, and the id is new. On success the store gains exactly that lot, active, and the response echoes the id and capacity with `isActive: true`. Every failure leaves the lot store unchanged, and the status is 400 exactly when one of those conditions fails. |
| `ParkingController.CreateParkingLotPreservesStore` | controllers/parkingController.js:17-18 | Creating a lot keeps the store invariant: every lot is schema-valid and active. |
| `ParkingController.MinParkedSlot` | controllers/parkingController.js:63-68 | `None` iff the lot has no PARKED record. Otherwise the value is the slot of one of the lot's PARKED records and no larger than any of their slots. |
| `ParkingController.NextSlot` | controllers/parkingController.js:70-77 | The assigned slot is 1 when the lot has no PARKED record. Otherwise it is one more than the smallest slot among the lot's PARKED records. |
| `ParkingController.NextSlotDependsOnlyOnParkedSlots` | controllers/parkingController.js:63-77 | Two stores whose lot has the same set of PARKED slots yield the same next slot. Records of other lots play no part. |
| `ParkingController.ParkCar` | controllers/parkingController.js:36-97 | The checks run in the source's order and each has its own error: lot id missing, then bad plate, then colour outside the enum, then unknown or inactive lot. Success happens iff all four checks pass. On success exactly one record (lot, plate, colour, `NextSlot`, PARKED) is appended, and the response carries that same slot with status PARKED. Every failure leaves the record store unchanged, and the status is 400 exactly when one of the four checks fails. |
| `ParkingController.ParkCarPreservesStore` | controllers/parkingController.js:80-86 | Parking keeps the invariant. Every stored record stays schema-valid and PARKED, in a known lot, with a slot of at least 1. |
| `ParkingController.FindParkedCar` | controllers/parkingController.js:112-116 | Returns the index of the first PARKED record for (lot, plate), or `None` iff there is no such record. |
| `ParkingController.RemoveAt` | controllers/parkingController.js:112 | The delete half of `findOneAndDelete`: the store loses exactly the record at the found index (one copy of it, by multiset), and every other record keeps its relative order. |
| `ParkingController.LeaveCar` | controllers/parkingController.js:100-136 | A missing lot id or plate fails first, then a plate that fails the pattern, then "car not found" when no PARKED record matches. Success happens iff a matching record exists. On success exactly one matching record is removed, the others keep their order, and the response carries its slot and plate with status LEFT. Every failure leaves the store unchanged, and the status is 400 exactly when a field is missing, the plate fails the pattern or no PARKED record matches. |
| `ParkingController.LeaveCarPreservesStore` | controllers/parkingController.js:112-120 | Leaving keeps the store invariant. |
| `ParkingController.Matching` | controllers/parkingController.js:148-152 | A record occurs in the result exactly as often as in the store if it is a PARKED record of that lot and colour, and otherwise not at all. The result is empty iff no record matches. |
| `ParkingController.RegistrationOf` | controllers/parkingController.js:163-166 | The object listed for a record carries that record's colour and plate; lot, slot and status are dropped. |
| `ParkingController.SlotNumbers` | controllers/parkingController.js:205 | The slot list has one entry per matching record, in the same order, each the slot number of that record. |
| `ParkingController.GetRegistrationNumbersByColor` | controllers/parkingController.js:139-178 | A missing colour or lot id gives a 400, and nothing else does. An empty match gives `NoData` (status 200, `isSuccess` false) for that colour. Otherwise the result holds one (colour, plate) pair per matching record. |
| `ParkingController.GetSlotNumbersByColor` | controllers/parkingController.js:181-214 | Gives the same 400 and `NoData` cases as the registrations query. Otherwise the result is sorted ascending and is a permutation of the matching records' slot numbers. |
| `Sorting.SortAscending` | controllers/parkingController.js:205 | The result is sorted ascending and has exactly the input's elements. |
| `Sorting.SortedPermutationUnique` | controllers/parkingController.js:205 | Two sorted permutations of the same elements are equal, so any correct ascending sort gives the same slot list. |
| `ParkingService.Service.CreateParkingLot` | controllers/parkingController.js:5-34 | Updates the lot map in place. The response and the new map are exactly those of `ParkingController.CreateParkingLot`. The records are untouched and the invariant is kept. |
| `ParkingService.Service.ParkCar` | controllers/parkingController.js:36-97 | Updates the record sequence in place. The response and the new records are exactly those of `ParkingController.ParkCar`. The lots are untouched and the invariant is kept. |
| `ParkingService.Service.LeaveCar` | controllers/parkingController.js:100-136 | Deletes in place. The response and the new records are exactly those of `ParkingController.LeaveCar`. The lots are untouched and the invariant is kept. |
| `ParkingService.Service.GetRegistrationNumbersByColor` | controllers/parkingController.js:139-178 | Reads the records only (no `modifies`). The result is a function of the record store, so repeated calls with no park or leave in between agree. |
| `ParkingService.Service.GetSlotNumbersByColor` | controllers/parkingController.js:181-214 | Reads the records only. Repeated calls with no park or leave in between agree. |
| `ParkingProperties.ParkThenLeaveTwice` | controllers/parkingController.js:80-130 | Parks a car not yet parked in that lot, then leaves twice. The first leave returns the slot the park assigned, with status LEFT, and restores the record store. The second leave fails with "car not found". |
| `ParkingProperties.LeaveRemovesExactlyOne` | controllers/parkingController.js:112-130 | A successful leave removes one PARKED record for (lot, plate) and keeps all others, in order. The store shrinks by exactly that record, and the response carries its slot and plate. |
| `ParkingProperties.ParkSlotIgnoresCapacityAndOtherLots` | controllers/parkingController.js:57-77 | The park response depends neither on the lot's capacity nor on other lots' records. Only the set of slots PARKED in the lot matters. |
| `ParkingProperties.SlotsRepeatInFreshLot` | controllers/parkingController.js:63-91 | In a fresh lot of capacity 1, any three valid parks get slots 1, 2 and 2. Capacity is not enforced, and two PARKED records end up sharing slot 2. |
| `ParkingProperties.SlotQueryOfAllMatching` | controllers/parkingController.js:190-208 | When every record is a PARKED car of the queried lot and colour, the slot query answers all their slots sorted ascending. |
| `ParkingProperties.SlotQueryIsAscending` | controllers/parkingController.js:190-208 | Three matching cars at slots 3, 1, 2 give the slot list [1, 2, 3]. |
| `ParkingProperties.RegistrationsAreTheMatchingCars` | controllers/parkingController.js:148-172 | A pair is in the registrations list iff some PARKED record of that lot and colour has it. Every listed pair carries the queried colour. |
| `ParkingProperties.SchemaAdmitsShorterPlates` | models/parking.js:14 | `KA05MH123` passes the schema's validator but not the controller's pattern. |

## Left out

- HTTP and Express wiring, body parsing, JSON serialisation, the MongoDB
  connection and process start-up: these are I/O. The route paths are named in
  the doc comments of the `Service` methods.
- The error-message strings are not modelled. Each failure carries an `Error`
  constructor that names its cause.
- Casting ids to ObjectIds is not modelled. A lot's `_id` is the default ObjectId
  (the lot schema declares no `_id`), but the model's lot ids and a record's lot
  reference are plain strings compared for equality. So creating a lot accepts any
  non-empty id, where the source answers 400 from `save` for an id such as
  `lot1` that does not cast. Park treats a malformed lot id like an unknown lot,
  with the same 400 the source gives. Leave answers "car not found" (400) where
  the source fails the cast, also with a 400. The colour queries answer `NoData`
  (200) for a malformed lot id, where the source answers 400.
- The gap between reading the smallest slot and saving the record in `parkCar` is
  not modelled. Each handler is one atomic step, so races between concurrent
  parks are not captured.
- JavaScript's loose typing is not modelled. Capacity is an integer or absent. A
  string or fractional capacity, and non-string plates or colours, are outside
  the model.
- Database failures other than a duplicate lot id (connectivity, timeouts) are
  not modelled.
- Where two PARKED records for the same lot and plate exist, `findOneAndDelete`
  picks one. The model takes the first in storage order.
- The order of the registrations list is the storage order. No ordering is
  claimed beyond that.
- The `isActive: false` branch of `parkCar` is modelled, but no operation can
  reach it, because every lot is created active and nothing clears the flag.
