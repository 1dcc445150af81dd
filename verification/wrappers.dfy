/** Failure-compatible result types shared by the rest of the model. */
module Wrappers {

  /** A value that may be absent, as a Mongo lookup that matched nothing. */
  datatype Option<+T> = None | Some(value: T)

  /** The outcome of an operation that can reject, as a JavaScript promise. */
  datatype Result<+R, +E> = Success(value: R) | Failure(error: E)
}
