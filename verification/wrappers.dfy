/** Failure-carrying datatypes used throughout the model: `Option` for a value
    that may be absent (a line without endpoints, a computation whose IEEE
    result would be non-finite) and `Result` for an operation that throws. */
module Wrappers {

  datatype Option<+T> = None | Some(value: T)

  datatype Result<+R, +E> = Success(value: R) | Failure(error: E)
}
