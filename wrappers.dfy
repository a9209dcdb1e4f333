/** Optional values: a card pointer that may be null. */
module Wrappers {
  datatype Option<T> = None | Some(value: T)
}
