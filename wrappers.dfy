/** Success/failure values for operations whose source throws. */
module Wrappers {

  datatype Option<+T> = None | Some(value: T)

  datatype Result<+R, +E> = Success(value: R) | Failure(error: E)

  /** Outcome of an operation that returns nothing useful but may fail. */
  datatype Outcome<+E> = Pass | Fail(error: E)
}
