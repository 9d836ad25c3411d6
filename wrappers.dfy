/** Failure-compatible wrappers used by the model. */
module Wrappers {

  /** An optional value: Rust's `Option<T>`. */
  datatype Option<+T> = None | Some(value: T)

  /** A value or an error: a Rust panic on a violated precondition is modelled as `Err`. */
  datatype Result<+T, +E> = Ok(value: T) | Err(error: E)
}
