/** Failure-carrying values used throughout the model. */
module Basics {

  /** A value that may be absent: a regex that did not match, an `int()` that raised. */
  datatype Option<+T> = None | Some(value: T)

  /** A value or the error that replaced it. */
  datatype Result<+T, +E> = Ok(value: T) | Err(error: E)
}
