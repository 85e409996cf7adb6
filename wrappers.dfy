/** Option and Result, the two failure-carrying shapes the model uses in place of
    Rust's `Option` and of the `unwrap` panics of the mock server. */
module Wrappers {

  datatype Option<+T> = None | Some(value: T)

  /** `Err` carries the reason a Rust `unwrap` would have panicked. */
  datatype Result<+T, +E> = Ok(value: T) | Err(error: E)
}
