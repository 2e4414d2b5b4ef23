/**
 Rust's `Option` and `Result`, the two failure-carrying types every
 operation of the model returns.
 */
module Results {

  /** An optional value: `None` or `Some(value)`. */
  datatype Option<+T> = None | Some(value: T)

  /** The outcome of a fallible operation: `Ok(value)` or `Err(error)`. */
  datatype Result<+T, +E> = Ok(value: T) | Err(error: E)
}
