/** The optional value returned by a lookup that may find nothing (a query's `.first()`). */
module Wrappers {
  datatype Option<+T> = None | Some(value: T)
}
