/** Optional values and results with an error, used for lookups that may miss
    and for operations that fail with a reason. */
module Wrappers {

  datatype Option<+T> = None | Some(value: T)

  datatype Result<+T, +E> = Success(value: T) | Failure(error: E)
}
