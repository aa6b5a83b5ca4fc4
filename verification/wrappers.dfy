/** The optional value a Python function signals by returning `None`. */
module Wrappers {

  datatype Option<+T> = None | Some(value: T)
}
