/** Optional values and error-carrying results, as the service's handlers use them. */
module Wrappers {

  /** A value that may be absent (Python's `Optional[...]`, a file that may not exist). */
  datatype Option<+T> = None | Some(value: T)

  /** The outcome of a request handler: a value, or the error it raises. */
  datatype Result<+T, +E> = Ok(value: T) | Err(error: E)
}
