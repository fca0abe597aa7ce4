/** The optional value used by lookups and by the integer parser. */
module Wrappers {
  datatype Option<T> = None | Some(value: T)
}
