/** Optional values, for a pointer that may be null and a search that may fail. */
module Wrappers {

  datatype Option<T> = None | Some(value: T)
}
