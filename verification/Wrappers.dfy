/** Stand-in for optional values (nil pointers and missing map entries in the source). */
module Wrappers {
  datatype Option<+T> = None | Some(value: T)
}
