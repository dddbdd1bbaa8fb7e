/** Failure-compatible result types used in place of Python's None and exceptions. */
module Wrappers {

  /** A value that may be absent (Python's `X | None`). */
  datatype Option<+T> = None | Some(value: T)

  /** The value of a call that either returns normally or raises `error`. */
  datatype Result<+R, +E> = Success(value: R) | Failure(error: E)
}
