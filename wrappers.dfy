/** Optional values and JavaScript-style outcomes shared by every module. */
module Wrappers {

  /** A value that may be absent: JavaScript's `null` / `undefined`. */
  datatype Option<+T> = None | Some(value: T)

  /** The outcome of a call that either returns a value or throws an `Error` carrying a message. */
  datatype Result<+T> = Ok(value: T) | Err(message: string)
}
