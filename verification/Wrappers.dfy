/** The optional value used for null pointers, missing bindings and failed calls. */
module Wrappers {
  datatype Option<+T> = None | Some(value: T)
}
