/** The two ways a Python computation can come up empty: a missing value, and a raised exception. */
module Wrappers {

  /** A value that may be missing, such as a model call that produced no reply. */
  datatype Option<+T> = None | Some(value: T)

  /** A computation that either produces a value or raises an error. */
  datatype Result<+T, +E> = Success(value: T) | Failure(error: E)
}
