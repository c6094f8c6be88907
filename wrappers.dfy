/** Optional values: an absent JSON field, a record a query did not find, an index not found. */
module Wrappers {
  datatype Option<+T> = None | Some(value: T)
}
