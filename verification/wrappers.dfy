/** The optional value used for the gallery's "no project selected" state. */
module Wrappers {
  datatype Option<T> = None | Some(value: T)
}
