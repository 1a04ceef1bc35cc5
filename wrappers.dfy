/** Option and Result: the absent-value and error-carrying results used across the model. */
module Wrappers {

  datatype Option<+T> = None | Some(value: T)

  /** A computation that either yields a value or reports an error message. */
  datatype Result<+T> = Ok(value: T) | Err(message: string)
}
