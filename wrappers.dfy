/** The optional-value datatype used by the parsing helpers. */
module Wrappers {

  datatype Option<+T> = None | Some(value: T)
}
