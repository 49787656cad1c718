/** Failure-compatible wrappers used throughout the model: a thrown exception
    becomes a `Failure`, a nullable lookup becomes an `Option`. */
module Wrappers {

  /** A value that may be absent (the source's `T | null`). */
  datatype Option<+T> = None | Some(value: T)

  /** Either a computed value or the error that would have been thrown. */
  datatype Result<+T, +E> = Success(value: T) | Failure(error: E) {

    predicate IsFailure() {
      Failure?
    }

    function PropagateFailure<U>(): Result<U, E>
      requires Failure?
    {
      Failure(error)
    }

    function Extract(): T
      requires Success?
    {
      value
    }
  }
}
