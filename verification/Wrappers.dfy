/** A value that may be missing, as the program's null pointers and failed look-ups are. */
module Wrappers {
  datatype Option<T> = None | Some(value: T)
}
