/** Shared value types. */
module Basics {
  datatype Option<T> = None | Some(value: T)
}
