/** Optional values: a JSON field that may be missing from a request body. */
module Wrappers {

  datatype Option<+T> = None | Some(value: T)

}
