/** Optional values: stands for JavaScript's `undefined` and for environment variables that are not set. */
module Wrappers {
  datatype Option<+T> = None | Some(value: T)
}
