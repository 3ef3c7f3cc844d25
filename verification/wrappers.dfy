/** Failure-carrying results: the model's stand-in for Python exceptions. */
module Wrappers {

  datatype Option<+T> = None | Some(value: T)

  /** A computation that yields a value or fails with an error. */
  datatype Result<+R, +E> = Success(value: R) | Failure(error: E)

  /** A computation that only succeeds or fails. */
  datatype Outcome<+E> = Pass | Fail(error: E)
}
