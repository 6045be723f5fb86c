/** The optional value used for fields and filters that may be absent. */
module Wrappers {
  datatype Option<+T> = None | Some(value: T)
}
