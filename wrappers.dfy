/** Optional values, used for partial operations such as number parsing. */
module Wrappers {
  datatype Option<+T> = None | Some(value: T)
}
