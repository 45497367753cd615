/** The optional-value datatype used for the solver's answer and for refused commands. */
module Wrappers {

  datatype Option<+T> = None | Some(value: T)
}
