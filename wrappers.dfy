/** Option and Result values standing in for Kotlin's nullable types and `Result<T>`. */
module Wrappers {

  datatype Option<+T> = None | Some(value: T)

  /** `Failure` carries the reason the source wraps in an exception. */
  datatype Result<+T, +E> = Success(value: T) | Failure(error: E)
}
