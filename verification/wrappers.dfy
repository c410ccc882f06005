/** Optional values: a nullable column, or a parse that may fail. */
module Wrappers {

  datatype Option<+T> = None | Some(value: T)
}
