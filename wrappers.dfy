/** The optional value used where the JavaScript source has `null` or `undefined`. */
module Wrappers {
  datatype Option<+T> = None | Some(value: T)
}
