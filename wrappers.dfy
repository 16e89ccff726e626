/** Option and Result, used by every other module of the model. */
module Wrappers {

  datatype Option<T> = None | Some(value: T)

  /** The outcome of an operation that the original reports by throwing. */
  datatype Result<T, E> = Ok(value: T) | Err(error: E)
}
