/** Failure-carrying datatypes used to model the exceptions of the service. */
module Wrappers {

  /** A value that may be missing: the outcome of parsing a date text. */
  datatype Option<+T> = None | Some(value: T)

  /** A value or the reason it could not be produced. */
  datatype Result<+R, +E> = Success(value: R) | Failure(error: E)

  /** A check that either passes or fails with a reason (a `void` method that may throw). */
  datatype Outcome<+E> = Pass | Fail(error: E)
}
