/** Optional values and fallible results, shared by every module of the model. */
module Wrappers {

  /** A JavaScript value that may be `undefined`/`null`. */
  datatype Option<+T> = None | Some(value: T)

  /** A computation that either returns a value or throws an error with a message. */
  datatype Result<+T> = Ok(value: T) | Err(message: string)
}
