/** The optional value used wherever the source can produce `nil` or a non-string. */
module Wrappers {
  datatype Option<+T> = None | Some(value: T)
}
