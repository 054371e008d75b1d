/** The optional value used throughout for null pointers, missing keys and failed allocations. */
module Wrappers {
  datatype Option<+T> = None | Some(value: T)
}
