/** Failure-carrying result types shared by the model. */
module Wrappers {

  /** A value that may be absent (JavaScript's `undefined`, `null` or `NaN`). */
  datatype Option<+T> = None | Some(value: T)

  /** A computation that either succeeds with a value or stops with an error. */
  datatype Result<+T, +E> = Success(value: T) | Failure(error: E)
}
