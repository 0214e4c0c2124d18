/** Optional values: an absent database row, an absent upload, a redirect instead of a page. */
module Wrappers {

  datatype Option<+T> = None | Some(value: T)
}
