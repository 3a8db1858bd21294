/** Optional values: a pending card selection, a timer handle, a message that was shown. */
module Wrappers {
  datatype Option<+T> = None | Some(value: T)
}
