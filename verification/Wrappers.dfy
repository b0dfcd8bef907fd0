module Wrappers {
  /** A value the program represents by `None` when it is missing. */
  datatype Option<T> = None | Some(value: T)
}
