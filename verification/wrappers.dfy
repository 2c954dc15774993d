/** The optional value returned where the source returns an index or `None`. */
module Wrappers {

  /** Option, standing in for Python's `None`. */
  datatype Option<+T> = None | Some(value: T)
}
