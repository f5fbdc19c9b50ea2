/** A value that may be missing: JavaScript's null or undefined, or a request that failed. */
module Wrappers {
  datatype Option<+T> = None | Some(value: T)
}
