/** The optional value used for the source's `T | null` fields. */
module Wrappers {
  datatype Option<+T> = None | Some(value: T)
}
