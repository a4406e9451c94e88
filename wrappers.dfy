/** Option: a value the source represents by a possibly-null reference. */
module Wrappers {
  datatype Option<+T> = None | Some(value: T)
}
