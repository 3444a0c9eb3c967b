/** Failure-compatible wrappers used across the model. */
module Wrappers {

  /** A value that may be absent (pandas NaN / NaT, a missing dict key). */
  datatype Option<+T> = None | Some(value: T)

  /** The outcome of a step that can raise: either its value or the error it raises. */
  datatype Result<+T, +E> = Ok(value: T) | Err(error: E)
}
