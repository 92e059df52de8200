/** Failure-compatible values shared by the launcher model. */
module Wrappers {

  /** A value that may be absent (a JavaScript `null`/`undefined`). */
  datatype Option<T> = None | Some(value: T)

  /** The outcome of an operation that either returns a value or throws an error. */
  datatype Result<T, E> = Ok(value: T) | Err(error: E)
}
