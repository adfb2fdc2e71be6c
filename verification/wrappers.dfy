/**
  A value that may be missing: Python's `None` next to a value of the
  given type.
 */
module Wrappers {

  datatype Option<+T> = None | Some(value: T)
}
