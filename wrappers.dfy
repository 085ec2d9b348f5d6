/** The Option datatype used throughout the model for values that JavaScript leaves `null` or `undefined`. */
module Wrappers {
  datatype Option<+T> = None | Some(value: T)
}
