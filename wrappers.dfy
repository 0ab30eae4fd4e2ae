/** Optional values and error results shared by the analyzer and the flag store. */
module Wrappers {

  /** A value that may be absent: `null` in the original program. */
  datatype Option<+T> = None | Some(value: T)

  /** The outcome of an operation that can throw. */
  datatype Result<+T> = Ok(value: T) | Err(message: string)
}
