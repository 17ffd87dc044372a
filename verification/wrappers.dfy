/** Failure-carrying result types shared by the model. */
module Wrappers {

  /** A value that may be absent: a parse that failed, an index past the end. */
  datatype Option<+T> = None | Some(value: T)

  /** The outcome of a computation that raises instead of returning. */
  datatype Result<+R, +E> = Success(value: R) | Failure(error: E)
}
