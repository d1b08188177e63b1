/** Failure-carrying values shared by both engines. */
module Wrappers {

  /** A value that may be absent (an optional field, a lookup that found nothing). */
  datatype Option<+T> = None | Some(value: T)

  /** The outcome of an operation that can fail with an error value. */
  datatype Result<+T, +E> = Success(value: T) | Failure(error: E)
}
