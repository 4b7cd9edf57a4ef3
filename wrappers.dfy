/** Option and Result values for the error returns of the Go functions. */
module Wrappers {

  datatype Option<+T> = None | Some(value: T)

  datatype Result<+T, +E> = Success(value: T) | Failure(error: E)

  /** An error-only result, for Go functions that return just `error`. */
  datatype Outcome<+E> = Pass | Fail(error: E)
}
