/** Optional values and results with an error, shared by every module of the model. */
module Wrappers {

  /** A value that may be absent (a nullable column, an unset variable, undefined metadata). */
  datatype Option<+T> = None | Some(value: T)

  /** The outcome of an operation that either returns a value or fails with an error. */
  datatype Result<+T, +E> = Ok(value: T) | Err(error: E)
}
