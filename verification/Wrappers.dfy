/** A value that may be missing: an absent property, an undefined result, a null pointer. */
module Wrappers {
  datatype Option<+T> = None | Some(value: T)
}
