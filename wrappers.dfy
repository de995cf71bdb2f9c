/** Optional values: a C++ address that may be NULL, a string argument that may be absent. */
module Wrappers {
  datatype Option<+T> = None | Some(value: T)
}
