/** Optional values and results with an error, used for the paths where the source
    blocks or raises instead of returning. */
module Wrappers {

  datatype Option<T> = None | Some(value: T)

  datatype Result<T, E> = Ok(value: T) | Err(error: E)
}
