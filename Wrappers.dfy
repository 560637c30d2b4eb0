/** The optional-value datatype used for the platform's answers and for fallible extraction. */
module Wrappers {
  datatype Option<+T> = None | Some(value: T)
}
