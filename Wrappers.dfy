/** Optional values and results with an error, used where the source
    returns a null pointer or a default on a miss. */
module Wrappers {

  datatype Option<+T> = None | Some(value: T)

  datatype Result<+T, +E> = Ok(value: T) | Err(error: E)
}
