/** The optional value used where the C++ returns null or signals failure. */
module Wrappers {
  datatype Option<T> = None | Some(value: T)
}
