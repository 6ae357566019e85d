/** Failure-carrying results shared by the modules of the evaluator model. */
module Wrappers {

  /** A value that may be absent; stands for the source's nullable returns. */
  datatype Option<+T> = None | Some(value: T)

  /** A value or the error that the source would raise instead. */
  datatype Result<+T, +E> = Ok(value: T) | Err(error: E)
}
