/** Optional values: a file read that may fail, an integer field that may not parse. */
module Wrappers {

  datatype Option<+T> = None | Some(value: T)
}
