/** Optional values, used for the C functions that return a buffer only on success. */
module Wrappers {
  datatype Option<+T> = None | Some(value: T)
}
