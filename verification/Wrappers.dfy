/** An optional value: what the source returns through a pointer, a zero or an error code. */
module Wrappers {

  datatype Option<+T> = None | Some(value: T)
}
