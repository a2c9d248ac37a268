/** Optional values, standing for Python's `None` and for falsy request fields. */
module Wrappers {

  datatype Option<+T> = None | Some(value: T)

}
