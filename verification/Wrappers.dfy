/** Failure-compatible result types shared by every module of the model. */
module Wrappers {

  datatype Option<+T> = None | Some(value: T)

  /** A Go pair of a value and an error, exactly one of which is meaningful. */
  datatype Result<+T, +E> = Ok(value: T) | Err(error: E)
}
