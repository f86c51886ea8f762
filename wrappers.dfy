/** Rust's `Option`, used for every optional index, cursor and result in the model. */
module Wrappers {

  datatype Option<+T> = None | Some(value: T)
}
