/** The optional value used throughout the model: JavaScript's `null` and
    `undefined` for a slot, a stored value or a timer handle. */
module Wrappers {
  datatype Option<+T> = None | Some(value: T)
}
