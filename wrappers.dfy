/** The optional-value datatype used for decoding and for classifying function codes. */
module Wrappers {

  datatype Option<+T> = None | Some(value: T)
}
