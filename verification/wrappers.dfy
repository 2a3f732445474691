/** Optional values and results, used in place of PHP's null and exceptions. */
module Wrappers {

  /** A value that may be absent (PHP's null). */
  datatype Option<+T> = None | Some(value: T)

  /** A value, or the failure that was raised instead of producing it. */
  datatype Result<+T, +E> = Ok(value: T) | Err(error: E)
}
