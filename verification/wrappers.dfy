/** Optional values, used for files that may be absent and for the
    optional search limit. */
module Wrappers {

  datatype Option<+T> = None | Some(value: T)
}
