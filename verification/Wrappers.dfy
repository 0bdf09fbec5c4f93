/** A value that may be absent: the model of a nullable pointer to a string, or of an optional packet. */
module Wrappers {
  datatype Option<+T> = None | Some(value: T)
}
