/** Optional values: `None` stands for JavaScript's `undefined` (a missing split part)
    or `NaN` (a string `parseInt` cannot read). */
module Wrappers {
  datatype Option<+T> = None | Some(value: T)
}
