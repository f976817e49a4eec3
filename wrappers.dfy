/** The optional value used for Python attributes that may be absent. */
module Wrappers {
  datatype Option<+T> = None | Some(value: T)
}
