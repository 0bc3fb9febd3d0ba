/** Failure-carrying result types shared by the modules of this model. */
module Wrappers {

  /** A value that may be absent. */
  datatype Option<+T> = None | Some(value: T)

  /** A Go `(value, error)` pair: either a value or an error. */
  datatype Result<+T, +E> = Ok(value: T) | Err(error: E)

  /** A Go `error` return on its own: nil (`Pass`) or an error. */
  datatype Outcome<+E> = Pass | Fail(error: E)
}
