/** Optional values: a Python `None` (or a pandas NaN) field is `None`. */
module Wrappers {

  datatype Option<+T> = None | Some(value: T)

}
