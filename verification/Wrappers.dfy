/** An optional value: an absent file, map entry or pointer. */
module Wrappers {
  datatype Option<+T> = None | Some(value: T)
}
