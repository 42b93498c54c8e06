/** Outcome types shared by the simulation modules. */
module Wrappers {

  /** A value, or the error the Python code would have raised instead. */
  datatype Result<+T, +E> = Ok(value: T) | Err(error: E)

  datatype Option<+T> = None | Some(value: T)
}
