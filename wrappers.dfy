/** Failure-compatible wrappers shared by the command-line and bump models. */
module Wrappers {

  /** Python's `X | None`. */
  datatype Option<+T> = None | Some(value: T)

  /** A value or the exception the source raises instead of returning it. */
  datatype Result<+T, +E> = Ok(value: T) | Err(error: E)
}
