/** Optional values and results with an error, the shapes the model uses for
    Python's `None` and for exceptions that propagate to the caller. */
module Wrappers {

  datatype Option<+T> = None | Some(value: T)

  datatype Result<+T, +E> = Ok(value: T) | Err(error: E)
}
