/** Optional values: a missing storage key, a `null` chart point. */
module Wrappers {

  datatype Option<+T> = None | Some(value: T)
}
