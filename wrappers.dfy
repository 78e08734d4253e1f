/** Optional values: a popped tracking frame that may be null. */
module Wrappers {
  datatype Option<+T> = None | Some(value: T)
}
