/** The optional-value type used for the fields the program leaves `null` or `undefined`. */
module Wrappers {

  datatype Option<+T> = None | Some(value: T)
}
