/** Small failure-compatible wrappers shared by the other modules. */
module Base {

  /** An optional value, as Rust's `Option`. */
  datatype Option<+T> = None | Some(value: T)

  /** The value of a fallible step, as Rust's `io::Result<T>` with the error kept as its message. */
  datatype Result<+T> = Ok(value: T) | Err(error: string)

  /** A fallible step with no value, as Rust's `io::Result<()>`. */
  datatype Outcome = Pass | Fail(error: string)
}
