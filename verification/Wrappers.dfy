/** Optional values and fallible results, used where the source returns `Option` or `GlobalResult`. */
module Wrappers {
  datatype Option<+T> = None | Some(value: T)

  datatype Result<+T, +E> = Ok(value: T) | Err(error: E)
}
