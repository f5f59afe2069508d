/** Option and Result values shared by the rest of the model. */
module Wrappers {

  /** A value that may be missing: a query argument that was not sent, a JavaScript `null`. */
  datatype Option<+T> = None | Some(value: T)

  /** The outcome of an operation that either yields a value or fails with an error. */
  datatype Result<+T, +E> = Success(value: T) | Failure(error: E)
}
