/** Option and Result values used for the error paths of the model. */
module Wrappers {

  datatype Option<+T> = None | Some(value: T)

  /** The outcome of an operation that raises an exception on failure. */
  datatype Result<+R, +E> = Success(value: R) | Failure(error: E)
}
