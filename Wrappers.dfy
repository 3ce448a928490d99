/** Small failure-compatible datatypes used throughout the model. */
module Wrappers {

  /** A macro that is either defined with a value or not defined at all. */
  datatype Option<+T> = None | Some(value: T)

  /** The outcome of processing a check header that produces no value of its own. */
  datatype Outcome<+E> = Pass | Fail(error: E)

  /** The outcome of processing a check header that produces a value. */
  datatype Result<+R, +E> = Success(value: R) | Failure(error: E)
}
