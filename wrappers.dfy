/** The optional value used for Python's `None`-or-value fields and for
    operations that may raise. */
module Wrappers {

  datatype Option<+T> = None | Some(value: T)
}
