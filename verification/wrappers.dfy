/** Failure-compatible wrappers used for the facade's exceptions and nullable results. */
module Wrappers {

  /** A value that may be absent (a Java `Optional` or a nullable reference). */
  datatype Option<+T> = None | Some(value: T)

  /** The value of a call that either returns or throws. */
  datatype Result<+R, +E> = Success(value: R) | Failure(error: E)

  /** The outcome of a call whose only return value is `this`: it passes or throws. */
  datatype Outcome<+E> = Pass | Fail(error: E)
}
