/** Optional values and results with an error, as the source's Option and the
    outcomes of its fallible steps. */
module Wrappers {

  datatype Option<+T> = None | Some(value: T)

  datatype Result<+T, +E> = Ok(value: T) | Err(error: E)
}
