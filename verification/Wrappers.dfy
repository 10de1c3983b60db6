/** A value that may be missing: the null pointers the clients return. */
module Wrappers {
  datatype Option<+T> = None | Some(value: T)
}
