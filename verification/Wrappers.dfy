/** Optional values: nullable columns, missing request fields and lookups that may find nothing. */
module Wrappers {
  datatype Option<+T> = None | Some(value: T)
}
