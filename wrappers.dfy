/** Optional values and error-or-value results, used throughout the model. */
module Wrappers {

  /** A value that may be absent: an unset JSON property, a `null` lookup, or JavaScript's NaN. */
  datatype Option<+T> = None | Some(value: T)

  /** The outcome of a request handler: the value it produced, or the error response it sent. */
  datatype Result<+T, +E> = Ok(value: T) | Err(error: E)
}
