/** The optional value returned by dictionary lookups (Swift's `T?`). */
module Wrappers {
  datatype Option<+T> = None | Some(value: T)
}
