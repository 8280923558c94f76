/** Small failure-carrying datatypes used across the model. */
module Wrappers {
  datatype Option<+T> = None | Some(value: T)

  datatype Result<+R, +E> = Success(value: R) | Failure(error: E)

  /** The outcome of a statement that either completes or raises. */
  datatype Outcome<+E> = Pass | Fail(error: E)
}
