/** Failure-compatible wrappers shared by the other modules. */
module Wrappers {

  datatype Option<+T> = None | Some(value: T)

  /** The outcome of an operation that the PHP code may abort with an exception. */
  datatype Result<+T, +E> = Success(value: T) | Failure(error: E)
}
