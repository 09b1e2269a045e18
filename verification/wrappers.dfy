/** Rust's `Option` and `io::Result` as plain datatypes. */
module Wrappers {

  /** Rust's `Option<T>`. */
  datatype Option<+T> = None | Some(value: T)

  /** Rust's `io::Result<T>`: a value or an OS error number. */
  datatype Result<+T, +E> = Ok(value: T) | Err(error: E)
}
