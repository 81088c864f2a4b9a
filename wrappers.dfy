/** The optional value used by the recognizer and the class-name lookup. */
module Wrappers {
  datatype Option<T> = None | Some(value: T)
}
