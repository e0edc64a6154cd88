/** The optional values the service may leave unset. */
module Wrappers {
  datatype Option<+T> = None | Some(value: T)
}
