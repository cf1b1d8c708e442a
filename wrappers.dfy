/** The optional value, standing for a table lookup that may come back `undefined`. */
module Wrappers {

  datatype Option<+T> = None | Some(value: T)
}
