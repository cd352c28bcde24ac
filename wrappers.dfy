/** Failure-compatible result types shared by every module of the model. */
module Wrappers {

  /** A value that may be absent. */
  datatype Option<+T> = None | Some(value: T)

  /** The outcome of an operation that can fail the way the Python code raises. */
  datatype Result<+T, +E> = Ok(value: T) | Err(error: E)
}
