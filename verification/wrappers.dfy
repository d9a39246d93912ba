/** Optional values, the model's counterpart of Python's `None` and
    TypeScript's `undefined`. */
module Wrappers {

  datatype Option<+T> = None | Some(value: T)
}
