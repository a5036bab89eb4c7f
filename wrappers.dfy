/** Failure-carrying results: the model's stand-in for Python's raised ValueError. */
module Wrappers {
  datatype Option<+T> = None | Some(value: T)

  datatype Result<+T, +E> = Ok(value: T) | Err(error: E)
}
