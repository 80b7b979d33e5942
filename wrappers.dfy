/** Rust's `Option<T>`, as the model uses it for the library calls that may decline. */
module Wrappers {

  datatype Option<+T> = None | Some(value: T)
}
