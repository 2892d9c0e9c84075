/** A value that may be absent: JavaScript's `null` / `undefined` in the model. */
module Wrappers {
  datatype Option<+T> = None | Some(value: T)
}
