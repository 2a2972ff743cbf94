/** Optional values: a DOM attribute that may be absent (`getAttribute` returning null). */
module Wrappers {
  datatype Option<+T> = None | Some(value: T)
}
