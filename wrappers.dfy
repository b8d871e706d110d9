/** The optional-value wrapper used throughout the model (Go's nil / "no match"). */
module Wrappers {
  datatype Option<+T> = None | Some(value: T)
}
