/** The optional-value type shared by the store and the worker. */
module Wrappers {

  /** A value that may be absent: a nil pointer or slice, or a failed lookup. */
  datatype Option<+T> = None | Some(value: T)
}
