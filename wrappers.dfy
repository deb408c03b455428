/** Optional values, used for "the last event of some kind, if any". */
module Wrappers {
  datatype Option<T> = None | Some(value: T)
}
