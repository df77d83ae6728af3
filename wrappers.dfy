/** Option and Result, the shapes of Rust's `Option` and `syn::Result` in this model. */
module Wrappers {

  datatype Option<+T> = None | Some(value: T)

  datatype Result<+T, +E> = Ok(value: T) | Err(error: E)
}
