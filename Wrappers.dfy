/** Failure-compatible wrappers used across the model. */
module Wrappers {

  /** A value that may be absent (the source's `null`). */
  datatype Option<+T> = None | Some(value: T)

  /** A computation that either yields a value or raises an error. */
  datatype Result<+R, +E> = Success(value: R) | Failure(error: E)

  /** A step that either completes or raises an error, with no value. */
  datatype Outcome<+E> = Pass | Fail(error: E)
}
