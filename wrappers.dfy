/** Failure-carrying values used instead of null references and exceptions. */
module Wrappers {

  /** A value that may be absent: `None` plays the part of a null reference. */
  datatype Option<+T> = None | Some(value: T)

  /** A computed value, or the error that the operation raised instead. */
  datatype Result<+R, +E> = Success(value: R) | Failure(error: E)

  /** Success without a value, or the error that was raised. */
  datatype Outcome<+E> = Pass | Fail(error: E)
}
