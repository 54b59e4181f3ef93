/** Optional values: a key that localStorage may or may not hold, a string that may or may not parse. */
module Wrappers {

  datatype Option<+T> = None | Some(value: T)

}
