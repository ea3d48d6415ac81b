/** Optional values, used for Go's nil-able results and error returns. */
module Wrappers {

  datatype Option<+T> = None | Some(value: T)
}
