/** A result that may be missing: the NULL that the C functions return. */
module Wrappers {
  datatype Option<+T> = None | Some(value: T)
}
