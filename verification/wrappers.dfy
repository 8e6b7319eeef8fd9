/** Optional values: Python's `None` / JavaScript's `undefined` and `null`
    are all `None` here. */
module Wrappers {

  datatype Option<+T> = None | Some(value: T)
}
