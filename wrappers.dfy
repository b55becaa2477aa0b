/** Failure-carrying datatypes used for the two ways the full-name accessors can fail. */
module Wrappers {

  /** A value that may be absent; `None` models Python's `None`. */
  datatype Option<+T> = None | Some(value: T)

  /** The result of an operation that yields a value or raises an error. */
  datatype Result<+T, +E> = Success(value: T) | Failure(error: E)

  /** The result of an operation that yields nothing or raises an error. */
  datatype Outcome<+E> = Pass | Fail(error: E)
}
