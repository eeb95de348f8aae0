/** The optional value used for Python's `X | None` arguments. */
module Wrappers {

  datatype Option<+T> = None | Some(value: T)
}
