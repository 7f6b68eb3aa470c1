/** Optional values and results with an error channel, used for the
    repository's lookups and for exceptions that a call propagates. */
module Wrappers {

  datatype Option<+T> = None | Some(value: T)

  datatype Result<+R, +E> = Success(value: R) | Failure(error: E)
}
