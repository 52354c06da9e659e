/** Option, for a value that may be absent: a missing parent element, a
    measurement that throws, or a number parse that yields NaN. */
module Wrappers {
  datatype Option<+T> = None | Some(value: T)
}
