/** The optional value used by the parsing and error-reporting parts of the model. */
module Wrappers {
  datatype Option<+T> = None | Some(value: T)
}
