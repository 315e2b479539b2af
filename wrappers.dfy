/** Failure-carrying results: the model's stand-in for a Python exception. */
module Wrappers {
  datatype Result<+T, +E> = Ok(value: T) | Err(error: E)

  datatype Option<+T> = None | Some(value: T)
}
