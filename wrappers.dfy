/** Failure-carrying datatypes shared by the modules of this project. */
module Wrappers {

  /** A value that may be missing: a library call that can fail without a reason. */
  datatype Option<+T> = None | Some(value: T)

  /** A value or the reason it could not be produced: Go's `(T, error)` pair. */
  datatype Result<+T, +E> = Ok(value: T) | Err(error: E)

  /** Success or a reason: Go's lone `error` return. */
  datatype Outcome<+E> = Pass | Fail(error: E)
}
