/** Option and Result, the two failure-carrying shapes used across the model. */
module Wrappers {

  datatype Option<+T> = None | Some(value: T)

  /** A Rust `panic!` or failed `.expect` aborts the compilation; the model returns `Err`. */
  datatype Result<+T, +E> = Ok(value: T) | Err(error: E)
}
