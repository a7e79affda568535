/** Option and Result values used for lookups and for operations that can fail. */
module Wrappers {

  datatype Option<+T> = None | Some(value: T)

  datatype Result<+T, +E> = Ok(value: T) | Err(error: E)

  /** The outcome of an operation that returns nothing on success (Rust's `Result<()>`). */
  datatype Outcome<+E> = Pass | Fail(error: E)
}
