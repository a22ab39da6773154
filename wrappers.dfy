/** Optional values, standing in for Python's `None` returns and failed conversions. */
module Wrappers {

  datatype Option<+T> = None | Some(value: T)

}
