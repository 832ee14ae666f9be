/** The optional-value datatype shared by the other modules. */
module Wrappers {

  /** A value that may be missing: a parse that failed, a date out of range. */
  datatype Option<+T> = None | Some(value: T)
}
