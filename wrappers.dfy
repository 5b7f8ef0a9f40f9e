/** Failure-carrying result types shared by the modules of this model. */
module Wrappers {

  /** A value that may be absent: the source's `null` / `undefined`. */
  datatype Option<+T> = None | Some(value: T)

  /** The outcome of an operation that either yields a value or fails. */
  datatype Result<+T, +E> = Ok(value: T) | Err(error: E)

  /** The outcome of an operation that yields nothing or fails. */
  datatype Outcome<+E> = Pass | Fail(error: E)
}
