/** Optional values: a dictionary key that may be absent, a `None` in Python. */
module Wrappers {

  datatype Option<+T> = None | Some(value: T)
}
