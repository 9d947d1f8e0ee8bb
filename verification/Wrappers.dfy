/** The option type used where the C code returns a null pointer, an error code or nothing. */
module Wrappers {
  datatype Option<+T> = None | Some(value: T)
}
