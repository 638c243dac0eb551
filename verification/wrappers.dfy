/** Option and Result, the two failure-carrying shapes used across the model. */
module Wrappers {

  datatype Option<T> = None | Some(value: T)

  /** A computation that either produced a value or raised an error. */
  datatype Result<T, E> = Ok(value: T) | Err(error: E)
}
