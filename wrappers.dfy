/** The Option value shared by the whole model. */
module Wrappers {

  /** A value that may be absent: stands for a C `NULL` pointer or an empty slot. */
  datatype Option<+T> = None | Some(value: T)
}
