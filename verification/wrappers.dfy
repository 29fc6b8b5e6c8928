/** Failure-carrying datatypes shared by the rest of the model. */
module Wrappers {

  /** An optional value: the comma-ok lookups and nil-able returns of the Go code. */
  datatype Option<+T> = None | Some(value: T)

  /** A value or an error: the `(value, error)` pairs returned by the Go code. */
  datatype Result<+T, +E> = Ok(value: T) | Err(error: E)
}
