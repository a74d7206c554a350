/** Failure-carrying wrappers shared by the modules of this model. */
module Outcomes {

  /** A value that may be absent: a nil pointer, a missing map entry, an empty query result. */
  datatype Option<+T> = None | Some(value: T)

  /** The (value, error) pair a Go function returns, with exactly one of the two meaningful. */
  datatype Result<+T, +E> = Success(value: T) | Failure(error: E)
}
