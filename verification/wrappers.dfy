/** The optional value used for Python's `None`-or-something results. */
module Wrappers {
  datatype Option<+T> = None | Some(value: T)
}
