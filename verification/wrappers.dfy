/** The optional result used when a string may name no member. */
module Wrappers {
  datatype Option<+T> = None | Some(value: T)
}
