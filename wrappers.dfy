/** The optional value used for Go's nil pointers and error returns. */
module Wrappers {
  datatype Option<+T> = None | Some(value: T)
}
