// The optional results of the program's lookups.

module Wrappers {
  datatype Option<+T> = None | Some(value: T)
}
