/** A value that may be absent: a Python dictionary key that is not set, or `None`. */
module Wrappers {
  datatype Option<+T> = None | Some(value: T)
}
