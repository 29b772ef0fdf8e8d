/** Optional values and success-or-error outcomes, shared by the rest of the model. */
module Wrappers {

  /** A value that may be absent: Python's `None` versus a set attribute. */
  datatype Option<+T> = None | Some(value: T)

  /** The outcome of an operation that may raise instead of returning. */
  datatype Result<+R, +E> = Success(value: R) | Failure(error: E)
}
