/** Optional values and results shared by all modules. */
module Wrappers {
  datatype Option<+T> = Some(value: T) | None

  datatype Result<+T, +E> = Ok(value: T) | Err(error: E)
}
