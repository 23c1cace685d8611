/** Failure-compatible result types used across the model. */
module Wrappers {

  /** A value that may be absent (a Java `null` or a failed conversion). */
  datatype Option<+T> = None | Some(value: T)

  /** The outcome of an operation that can throw: a value or the error it throws. */
  datatype Result<+T, +E> = Success(value: T) | Failure(error: E)
}
