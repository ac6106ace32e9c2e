/** Optional values: a Java reference that may be `null` becomes an `Option`. */
module Wrappers {

  datatype Option<+T> = None | Some(value: T)
}
