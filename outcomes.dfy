/** Failure-carrying results shared by the modules of this project. */
module Outcomes {

  /** An optional argument of a Python function (`None` or a value). */
  datatype Option<+T> = None | Some(value: T)

  /** The value of a computation, or the error that would have been raised. */
  datatype Result<+T, +E> = Ok(value: T) | Err(error: E)
}
