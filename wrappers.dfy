/** Optional values: `undefined`/`null` in the source becomes `None`. */
module Wrappers {

  datatype Option<+T> = None | Some(value: T)
}
