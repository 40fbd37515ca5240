/** Failure-carrying wrappers shared by the whole model. */
module Wrappers {

  /** `None` stands for Python's `None` or for a call that produced no usable value. */
  datatype Option<+T> = None | Some(value: T)

  /** A computation that either yields a value or fails with an error. */
  datatype Result<+T, +E> = Ok(value: T) | Err(error: E)
}
