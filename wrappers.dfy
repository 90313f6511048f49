/** The optional value used for JavaScript's `null` where the source stores one. */
module Wrappers {

  datatype Option<+T> = None | Some(value: T)
}
