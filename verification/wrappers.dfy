/** Failure-carrying values used throughout the model. */
module Wrappers {

  /** A value that may be absent; the abstract document engine answers with it. */
  datatype Option<+T> = None | Some(value: T)

  /** The outcome of a whole request: a value or an error. */
  datatype Result<+R, +E> = Success(value: R) | Failure(error: E)

  /** The outcome of a check that produces no value. */
  datatype Outcome<+E> = Pass | Fail(error: E)
}
