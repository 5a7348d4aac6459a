/** Option, the shape of Rust's `Option` and of a fallible step whose error carries nothing. */
module Wrappers {
  datatype Option<+T> = None | Some(value: T)
}
