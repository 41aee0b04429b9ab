/** Optional values and results with an error, shared by the registry and the game. */
module Wrappers {

  /** A Python value that may be `None`. */
  datatype Option<T> = None | Some(value: T)

  /** The outcome of an operation that raises `E` where Python would raise an exception. */
  datatype Result<T, E> = Ok(value: T) | Err(error: E)
}
