/** Failure-carrying result types: the model's stand-in for Python exceptions. */
module Wrappers {

  datatype Option<+T> = None | Some(value: T)

  /** An operation that either produced a value or raised an error. */
  datatype Result<+T, +E> = Success(value: T) | Failure(error: E)

  /** An operation run for its effect that either completed or raised an error. */
  datatype Outcome<+E> = Pass | Fail(error: E)
}
