/** An optional value and a value-or-error result shared by the model. */
module Wrappers {

  /** A value that may be absent, used where the JavaScript code tests for `undefined`. */
  datatype Option<+T> = None | Some(value: T)

  /** Either a value or an error message, used for operations that can throw. */
  datatype Result<+T> = Ok(value: T) | Err(error: string)
}
