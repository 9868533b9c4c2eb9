/** Absent-or-present values, standing in for the source's nullable pointers and `TOptional`. */
module Wrappers {
  datatype Option<T> = None | Some(value: T)
}
