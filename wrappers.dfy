/** Optional values, for the label lookup that may find nothing. */
module Wrappers {

  datatype Option<+T> = None | Some(value: T)
}
