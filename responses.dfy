/**
 * The response shape shared by every handler of the parking controller.
 * A handler either succeeds (`200 {isSuccess: true, response}`), finds nothing
 * for a well-formed query (`200 {isSuccess: false, error}`), or rejects the
 * request (`400 {isSuccess: false, error}`).
 */
module Responses {

  /** The reasons a handler rejects a request with status 400. */
  datatype Error =
    | IdRequired             // createParkingLot: `id` missing or empty
    | CapacityOutOfRange     // createParkingLot: capacity < 0 or capacity > 2000
    | CapacityRequired       // lot schema: `capacity` is a required field
    | DuplicateLotId         // the lot store already holds this id
    | ParkingLotIdRequired   // parkCar: `parkingLotId` missing or empty
    | InvalidRegistration    // parkCar / leaveCar: plate fails the pattern
    | InvalidColor           // parkCar: colour outside the enumeration
    | InvalidOrInactiveLot   // parkCar: lot unknown or not active
    | LeaveFieldsRequired    // leaveCar: `parkingLotId` or `registrationNumber` missing
    | CarNotFound            // leaveCar: no PARKED record for (lot, plate)
    | QueryFieldsRequired    // colour queries: `color` or `parkingLotId` missing

  datatype Response<+T> =
    | Ok(value: T)           // 200, isSuccess: true
    | NoData(color: string)  // 200, isSuccess: false: "No car found with color <color>"
    | Fail(error: Error)     // 400, isSuccess: false
  {
    /** The `isSuccess` flag of the JSON body. */
    predicate IsSuccess() {
      Ok?
    }

    /** The HTTP status code the handler answers with. */
    function HttpStatus(): (code: int)
      ensures code == 400 <==> Fail?
      ensures code == 200 <==> !Fail?
    {
      if Fail? then 400 else 200
    }
  }
}
