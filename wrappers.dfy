/** Failure-compatible helper types shared by every module of the model. */
module Wrappers {

  /** A value that may be absent: Python's `None` or an object. */
  datatype Option<+T> = None | Some(value: T)

  /** The outcome of an operation that can raise a Python exception. */
  datatype Result<+T, +E> = Ok(value: T) | Err(error: E)
}
