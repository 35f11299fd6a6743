/** Result and Option values for operations that can fail. */
module Wrappers {

  datatype Option<+T> = None | Some(value: T)

  /** Ok carries the value an operation produced; Err the reason it produced nothing. */
  datatype Result<+T, +E> = Ok(value: T) | Err(error: E)
}
