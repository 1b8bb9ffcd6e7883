/** Optional values: JavaScript's `null`/`undefined` (or NaN, for a failed parse) is `None`. */
module Wrappers {
  datatype Option<+T> = None | Some(value: T)
}
