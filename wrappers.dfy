/** Optional values and error results shared by the modules of this project. */
module Wrappers {

  /** A value that may be absent (Python's None, C's NULL, an option that was not given). */
  datatype Option<T> = None | Some(value: T)

  /** Either a value or the reason why there is none. */
  datatype Result<T, E> = Ok(value: T) | Err(error: E)
}
