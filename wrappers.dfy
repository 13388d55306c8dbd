/** Optional values, for fields that may be absent and collaborators that may fail. */
module Wrappers {
  datatype Option<+T> = None | Some(value: T)
}
