/** Failure-compatible wrappers shared by the other modules. */
module Results {

  datatype Option<+T> = None | Some(value: T)

  /** A value, or the error that stopped the computation (Rust's `Result`). */
  datatype Result<+T, +E> = Ok(value: T) | Err(error: E)
}
