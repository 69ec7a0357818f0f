/** Failure-carrying values used where the source returns None or raises. */
module Wrappers {

  /** A value that may be missing (Python's None). */
  datatype Option<+T> = None | Some(value: T)

  /** A computed value or the error the source would raise instead. */
  datatype Result<+T, +E> = Ok(value: T) | Err(error: E)

  /** Success of a state change, or the error that stopped it. */
  datatype Outcome<+E> = Pass | Fail(error: E)
}
