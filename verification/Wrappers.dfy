/** The value of a pointer that may be NULL. */
module Wrappers {
  datatype Option<+T> = None | Some(value: T)
}
