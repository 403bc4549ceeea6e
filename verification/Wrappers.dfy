/** The optional values of the source's `undefined` and `null` fields. */
module Wrappers {
  datatype Option<+T> = None | Some(value: T)
}
