/** Optional values and results with an error, used for the application's
    absent rows, absent session keys and error pages. */
module Wrappers {

  datatype Option<+T> = None | Some(value: T)

  datatype Result<+R, +E> = Success(value: R) | Failure(error: E)
}
