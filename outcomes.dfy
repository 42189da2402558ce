/** Optional values and results with an error, for the places where the
    modelled code returns `None` or raises an exception. */
module Outcomes {

  datatype Option<+T> = None | Some(value: T)

  datatype Result<+T, +E> = Ok(value: T) | Err(error: E)
}
