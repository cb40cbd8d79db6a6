/** Optional values: the outcome of a library call that may raise. */
module Wrappers {

  datatype Option<+T> = None | Some(value: T)
}
