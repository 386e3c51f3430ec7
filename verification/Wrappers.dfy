// The optional value used throughout the model for a JavaScript `null`/absent
// value and for Rust's Option.
module Wrappers {
  datatype Option<+T> = None | Some(value: T)
}
