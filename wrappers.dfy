/** Failure-carrying datatypes used for the loader's error paths. */
module Wrappers {

  /** A value that may be absent (a .NET reference that may be null). */
  datatype Option<+T> = None | Some(value: T)

  /** A computed value, or the error that stopped the computation. */
  datatype Result<+R, +E> = Success(value: R) | Failure(error: E)

  /** An operation that returns nothing: it passes, or it fails with an error. */
  datatype Outcome<+E> = Pass | Fail(error: E)
}
