/** Optional values: a field that may be missing from a JSON record. */
module Wrappers {

  datatype Option<T> = None | Some(value: T)
}
