/** Optional values: an absent request field, a lookup that finds nothing. */
module Wrappers {

  datatype Option<+T> = None | Some(value: T)
}
