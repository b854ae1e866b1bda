/** Optional values and call results shared by the whole model. */
module Wrappers {

  /** Python's `None` or a value. */
  datatype Option<+T> = None | Some(value: T)

  /** A returned value, or the exception that the call raises instead. */
  datatype Result<+T, +E> = Ok(value: T) | Err(error: E)
}
