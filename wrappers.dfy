/** Optional values and results with an error, shared by every module of the model. */
module Wrappers {

  /** A value that may be missing: a JSON key that is absent or null, a SQL NULL. */
  datatype Option<+T> = None | Some(value: T)

  /** The outcome of an operation that may raise instead of returning. */
  datatype Result<+T, +E> = Success(value: T) | Failure(error: E)
}
