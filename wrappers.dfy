/** Optional values: a frame slot that may be a hole, a canvas that may be blank. */
module Wrappers {

  datatype Option<+T> = None | Some(value: T)
}
