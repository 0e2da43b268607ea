/** The usual optional value, used where the C code has a NULL pointer or a -1 index. */
module Wrappers {

  datatype Option<+T> = None | Some(value: T)
}
