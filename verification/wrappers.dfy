/** Optional values: the model's stand-in for Python's `None`, and for a call
    that raises an exception the caller does not catch. */
module Wrappers {

  datatype Option<+T> = None | Some(value: T)
}
