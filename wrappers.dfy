/** The optional values of the system (Python's `None` or a value). */
module Wrappers {

  datatype Option<+T> = None | Some(value: T)

  /** A success value, or the error a Python operation raises. */
  datatype Result<+T, +E> = Ok(value: T) | Err(error: E)
}
