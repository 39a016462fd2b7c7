/** Optional values and success-or-error results, the shapes Go's `(T, error)` returns take here. */
module Wrappers {

  datatype Option<+T> = None | Some(value: T)

  datatype Result<+T, +E> = Success(value: T) | Failure(error: E)
}
