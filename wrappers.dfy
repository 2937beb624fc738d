/** Optional values: JavaScript's `undefined`/`null` for a field or a lookup. */
module Wrappers {
  datatype Option<+T> = None | Some(value: T)
}
