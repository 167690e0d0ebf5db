/** Failure-compatible wrappers shared by the whole model. */
module Common {

  datatype Option<T> = None | Some(value: T)

  /** The errors the simulation kernel throws. */
  datatype Failure =
    | InvalidFloorRequest(totalFloors: int) // "Elevator cannot go below floor 0 or above floor N"
    | NotYetEntered                         // "Passenger has not yet entered the elevator"
    | NotYetExited                          // "Passenger has not yet exited the elevator"

  datatype Result<T> = Ok(value: T) | Err(error: Failure)
}
