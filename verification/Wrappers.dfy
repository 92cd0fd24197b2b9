/** Optional values, in place of the null pointers and the -1 sentinels of the C code. */
module Wrappers {
  datatype Option<+T> = None | Some(value: T)
}
