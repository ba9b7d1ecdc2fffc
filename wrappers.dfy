/** The optional value used for Python's `None`-or-value arguments and fields. */
module Wrappers {

  datatype Option<+T> = None | Some(value: T)
}
