/** Optional values and results, standing for `T | null` and for a call that
    either returns a value or throws an error with a message. */
module Wrappers {

  datatype Option<+T> = None | Some(value: T)

  datatype Result<+T, +E> = Success(value: T) | Failure(error: E)
}
