/** Optional values: the model's rendering of a field that may be absent, `null` or `undefined`. */
module Wrappers {

  datatype Option<+T> = None | Some(value: T)
}
