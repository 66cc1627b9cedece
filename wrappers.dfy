/** Optional values: a field of a JavaScript object that may be `undefined`. */
module Wrappers {

  datatype Option<+T> = None | Some(value: T)
}
