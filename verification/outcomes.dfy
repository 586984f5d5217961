/** Success/failure values for the operations whose Python counterparts can raise. */
module Outcomes {

  /** Either a computed value or the error the Python code would have raised instead. */
  datatype Result<+T, +E> = Ok(value: T) | Err(error: E)

  /** A value that may be absent. */
  datatype Option<+T> = None | Some(value: T)
}
