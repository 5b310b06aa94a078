/** Failure types shared by the whole model. */
module Wrappers {
  /** A value that may be missing: Python's `None`, Go's `nil`, TypeScript's `null`. */
  datatype Option<+T> = None | Some(value: T)

  /** The outcome of an operation that the source may refuse with an exception. */
  datatype Result<+T, +E> = Ok(value: T) | Err(error: E)
}
