/** Optional values, standing in for Swift's `T?`. */
module Wrappers {

  datatype Option<+T> = None | Some(value: T)
}
