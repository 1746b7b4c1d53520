/** Optional values and results with an error, used for `null`/`undefined` and for rejected actions. */
module Wrappers {
  datatype Option<+T> = None | Some(value: T)

  datatype Result<+R, +E> = Ok(value: R) | Err(error: E)
}
