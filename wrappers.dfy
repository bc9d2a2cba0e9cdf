/** The optional-value datatype used for lookups and for the package descriptor read. */
module Wrappers {
  datatype Option<+T> = None | Some(value: T)
}
