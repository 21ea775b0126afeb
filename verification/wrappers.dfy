/** Optional values, standing in for the nil-able pointers of the Go code. */
module Wrappers {

  /** `None` plays the role of a nil pointer; `Some(v)` of a pointer to `v`. */
  datatype Option<+T> = None | Some(value: T)
}
