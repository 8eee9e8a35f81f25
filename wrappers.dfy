/** The optional-value datatype used where the source either yields a value or rejects its input. */
module Wrappers {
  datatype Option<+T> = None | Some(value: T)
}
