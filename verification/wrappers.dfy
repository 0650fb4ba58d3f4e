/** The optional value returned by a search for a first match. */
module Wrappers {

  /** `None` when nothing was found, `Some(value)` otherwise (JavaScript's `undefined` or the element). */
  datatype Option<+T> = None | Some(value: T)
}
