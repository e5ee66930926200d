/** Python's `None`-or-value, as used for optional keyword arguments and `next(..., None)`. */
module Wrappers {
  datatype Option<+T> = None | Some(value: T)
}
