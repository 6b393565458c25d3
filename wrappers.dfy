/** Failure-carrying result types shared by the gateway registry and the visibility engine. */
module Wrappers {

  datatype Option<+T> = None | Some(value: T)

  /** The outcome of a call that either returns a value or raises an exception. */
  datatype Result<+R, +E> = Success(value: R) | Failure(error: E)

  /** The outcome of a call that returns nothing but may raise an exception. */
  datatype Outcome<+E> = Pass | Fail(error: E)
}
