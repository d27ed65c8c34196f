/** Optional values and results with an error, used for every fallible step
    of the updater in place of Go's error returns and panics. */
module Wrappers {

  datatype Option<+T> = None | Some(value: T)

  datatype Result<+T, +E> = Ok(value: T) | Err(error: E)
}
