/** The optional value used for pandas' missing values and Python's None. */
module Wrappers {
  datatype Option<+T> = None | Some(value: T)
}
