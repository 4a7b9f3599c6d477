/** The optional value used where the source answers `nil` or `false`. */
module Wrappers {

  datatype Option<+T> = None | Some(value: T)
}
