/** Failure-carrying values shared by the whole model. */
module Wrappers {

  /** A value that may be missing: the model's stand-in for a NaN cell. */
  datatype Option<+T> = None | Some(value: T)

  /** A computation that either yields a value or raises an error. */
  datatype Result<+T, +E> = Ok(value: T) | Err(error: E)
}
