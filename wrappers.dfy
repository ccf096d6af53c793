/** Option and Result, the failure-carrying values the model returns. */
module Wrappers {

  datatype Option<+T> = None | Some(value: T)

  /** A Ruby call that either returns a value or raises. */
  datatype Result<+R, +E> = Success(value: R) | Failure(error: E)
}
