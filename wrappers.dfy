/** The optional value used for the source's `null` / empty cells. */
module Wrappers {

  datatype Option<+T> = None | Some(value: T)
}
