/** The error codes that the modelled operations return, and an optional value. */
module ClockErrors {

  datatype ClockError =
    | Success
    | InvalidArgument
    | WrongSyntax
    | NotConnected
    | ValueNotFound
    | NoElement
    | NoSpaceAvailable
    | Unknown

  datatype Option<+T> = None | Some(value: T)
}
