/** Optional values: the model's stand-in for JavaScript's `undefined`. */
module Wrappers {

  /** `None` where the JavaScript code would hold `undefined`. */
  datatype Option<+T> = None | Some(value: T)
}
