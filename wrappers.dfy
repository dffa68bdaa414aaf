/** The optional value used wherever the source has a `(value, ok)` or `(value, err)` pair. */
module Wrappers {
  datatype Option<+T> = None | Some(value: T)
}
