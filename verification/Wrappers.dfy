/** The values that may be absent in the source's objects. */
module Wrappers {
  datatype Option<+T> = None | Some(value: T)
}
