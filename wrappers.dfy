/** Option and Outcome: the two failure-carrying shapes the model needs. */
module Wrappers {

  datatype Option<+T> = None | Some(value: T)

  /** The result of a check that either passes or fails with an error. */
  datatype Outcome<+E> = Pass | Fail(error: E)

  /** The result of a step that either yields a value or fails with an error. */
  datatype Result<+R, +E> = Success(value: R) | Failure(error: E)
}
