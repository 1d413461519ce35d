/** Option and Result, the two failure-compatible shapes the model needs. */
module Wrappers {

  datatype Option<+T> = None | Some(value: T)

  /** The value of a Go call that returns `(T, error)`. */
  datatype Result<+T, +E> = Ok(value: T) | Err(error: E)
}
