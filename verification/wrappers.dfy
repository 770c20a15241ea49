/** Optional values and success/failure results, standing in for Kotlin's
    nullable types and for exceptions that escape an operation. */
module Wrappers {

  /** A Kotlin `T?`: either absent (`null`) or present. */
  datatype Option<+T> = None | Some(value: T)

  /** The outcome of an operation that may throw instead of returning. */
  datatype Result<+R, +E> = Success(value: R) | Failure(error: E)
}
