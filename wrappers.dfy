/** Optional value, standing for Python's `None` beside a value. */
module Wrappers {

  datatype Option<+T> = None | Some(value: T)
}
