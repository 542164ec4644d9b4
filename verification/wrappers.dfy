/** A value that may be absent: an unbound database or platform, an unset column attribute. */
module Wrappers {
  datatype Option<+T> = None | Some(value: T)
}
