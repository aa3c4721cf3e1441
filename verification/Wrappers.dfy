/** The optional value used wherever the C++ code holds a null or empty pointer. */
module Wrappers {
  datatype Option<+T> = None | Some(value: T)
}
