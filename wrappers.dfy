/** Failure-carrying result types shared by the modules of the model. */
module Wrappers {

  /** A value that may be absent, such as a regular-expression match. */
  datatype Option<+T> = None | Some(value: T)

  /** The outcome of a step that returns nothing but may fail. */
  datatype Outcome<+E> = Pass | Fail(error: E)

  /** A value or the reason it could not be produced. */
  datatype Result<+R, +E> = Success(value: R) | Failure(error: E)
}
