/** Failure-carrying wrapper types shared by the model. */
module Wrappers {

  /** A value that may be absent: a Python `None`, or a call that raised. */
  datatype Option<+T> = None | Some(value: T)
}
