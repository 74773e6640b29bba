/** Optional values and fallible results shared by the two handlers. */
module Wrappers {

  /** Python's `None` or a present value. */
  datatype Option<+T> = None | Some(value: T)

  /** A computation that either yields a value or raises with a message. */
  datatype Result<+T> = Ok(value: T) | Err(message: string)
}
