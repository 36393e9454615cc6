/** The optional value, in place of null, a trap or an abort. */
module Wrappers {
  datatype Option<+T> = None | Some(value: T)
}
