/** The optional value used throughout the model for Go's nil error and nil pointers. */
module Wrappers {

  datatype Option<+T> = None | Some(value: T)
}
