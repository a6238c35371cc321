/** Failure values for the operations that throw in the original program. */
module Errors {

  /** The exceptions the core raises, one constructor per `throw` site. */
  datatype Error =
    | InvalidCoordinates            // Country constructor: 'Coordinates are invalid'
    | NameTooLong                   // parseCountryString: name longer than 25 characters
    | DisconnectedCity(country: string)  // MapGrid: 'City in <country> has no neighbors'

  datatype Result<T> = Ok(value: T) | Err(error: Error)

  datatype Option<T> = None | Some(value: T)
}
