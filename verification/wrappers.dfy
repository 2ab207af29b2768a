/** Failure-compatible wrappers used for Java's Optional and for thrown exceptions. */
module Wrappers {

  /** Java's Optional<T>: None is Optional.empty() (and a null reference). */
  datatype Option<+T> = None | Some(value: T)

  /** A computation that either yields a value or fails with an error describing why. */
  datatype Result<+T, +E> = Success(value: T) | Failure(error: E)
}
