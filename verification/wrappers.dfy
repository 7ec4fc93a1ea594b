/** Failure-compatible wrappers used across the pipeline model. */
module Wrappers {

  /** A value that may be absent: a parsed date, or NaT when parsing fails. */
  datatype Option<+T> = None | Some(value: T)

  /** The outcome of a whole run: a value, or the error that aborted it. */
  datatype Result<+R, +E> = Success(value: R) | Failure(error: E)

  /** A check that either passes or fails with an error. */
  datatype Outcome<+E> = Pass | Fail(error: E)
}
