/** Optional values: an absent value (`undefined` in the source) or a present one. */
module Wrappers {

  datatype Option<+T> = None | Some(value: T)
}
