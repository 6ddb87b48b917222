/** Failure-carrying results shared by every part of the bookkeeper.
    The source signals failures with `std::runtime_error`; here each failure
    is a value of `Error`, returned instead of thrown. */
module Outcomes {

  datatype Option<+T> = None | Some(value: T)

  /** The kinds of failure the workflow and the loader raise. */
  datatype Error =
    | CustomerNotFound     // no customer with the requested ID
    | VehicleNotFound      // no vehicle with the requested ID
    | VehicleUnavailable   // the vehicle is already rented out
    | NotRented            // the customer does not hold the vehicle
    | RentalNotFound       // Customer.returnVehicle on a vehicle not in its rentals
    | DuplicateVehicleId   // addVehicle with an ID already in the fleet
    | DuplicateCustomerId  // addCustomer with an ID already on the roster
    | InvalidDate          // a date string that does not parse
    | FileOpen             // a data file that cannot be opened

  datatype Result<+T> = Ok(value: T) | Err(error: Error)
}
