/** `std::optional`: either empty or holding one value. */
module Wrappers {
  datatype Option<+T> = None | Some(value: T)
}
