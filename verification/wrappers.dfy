/** Optional values and results with an error, standing for Python's `None`
    and for an exception raised to the caller. */
module Wrappers {

  datatype Option<+T> = None | Some(value: T)

  datatype Result<+R, +E> = Success(value: R) | Failure(error: E)
}
