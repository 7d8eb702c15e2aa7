/** A value that may be absent: the sources' `null`, `undefined` and `None`. */
module Wrappers {
  datatype Option<+T> = None | Some(value: T)
}
