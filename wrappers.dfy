/** Optional values and results with an error: Python's `None` and raised exceptions. */
module Wrappers {

  /** A value that may be absent (`None` in Python). */
  datatype Option<+T> = None | Some(value: T)

  /** The outcome of an operation that either succeeds or raises an error. */
  datatype Result<+T, +E> = Ok(value: T) | Err(error: E)
}
