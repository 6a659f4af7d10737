/** Optional values: an element the page may not have, a match a search may not find. */
module Wrappers {
  datatype Option<+T> = None | Some(value: T)
}
