/** The optional values of the source. */
module Wrappers {
  datatype Option<+T> = None | Some(value: T)
}
