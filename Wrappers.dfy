/** Optional values, for the places where the JavaScript code reads a value that may be absent. */
module Wrappers {

  datatype Option<+T> = None | Some(value: T)
}
