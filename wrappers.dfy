/** The optional-value type the processors return and read through. */
module Wrappers {

  datatype Option<+T> = None | Some(value: T)
}
