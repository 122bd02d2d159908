/** The optional-value datatype used for a queue read that may find nothing. */
module Wrappers {
  datatype Option<+T> = None | Some(value: T)
}
