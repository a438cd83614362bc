/** The absent-value and error-value datatypes the rest of the model uses. */
module Wrappers {

  /** `T | null` / `T | undefined` in the reader's code. */
  datatype Option<+T> = None | Some(value: T)

  /** A value, or the error a call throws instead of returning one. */
  datatype Result<+T, +E> = Ok(value: T) | Err(error: E)
}
