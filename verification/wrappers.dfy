/** Failure-compatible wrappers shared by the whole model. */
module Wrappers {

  /** An optional value: Ruby's `nil` versus a present value. */
  datatype Option<+T> = None | Some(value: T)

  /** The outcome of a computation that may raise: a value, or the error it raised. */
  datatype Result<+T, +E> = Ok(value: T) | Err(error: E)
}
