/** Option and Result, the failure-carrying datatypes the rest of the model uses. */
module Wrappers {

  /** A value that may be absent: a JSON field that is null or missing. */
  datatype Option<+T> = None | Some(value: T)

  /** Either a value or the message of the exception the source would throw. */
  datatype Result<+R, +E> = Success(value: R) | Failure(error: E)
}
