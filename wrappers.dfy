/** Option and Result: absent values and the error paths of the scripts. */
module Wrappers {

  datatype Option<+T> = None | Some(value: T)

  /** The outcome of a step that can raise a Python exception. */
  datatype Result<+T, +E> = Ok(value: T) | Err(error: E)
}
