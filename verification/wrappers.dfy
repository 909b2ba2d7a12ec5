/** Failure-carrying values used across the model. */
module Wrappers {

  /** An optional value: a regex match that may be absent, a field that may be missing. */
  datatype Option<+T> = None | Some(value: T)

  /** The outcome of an operation that can fail with a message, as the converter's thrown errors do. */
  datatype Result<+T> = Ok(value: T) | Err(message: string)
}
