/** Result types shared by the model. */
module Wrappers {

  /** A value that may be missing: Go's `(value, ok)` pairs. */
  datatype Option<T> = None | Some(value: T)

  /** A value or an error: Go's `(value, error)` pairs. */
  datatype Result<T, E> = Ok(value: T) | Err(error: E)
}
