/** The optional value used by the checked wrappers of the converters. */
module Wrappers {
  datatype Option<T> = None | Some(value: T)
}
