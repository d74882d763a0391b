/** The optional value used for "a key that produced no action". */
module Wrappers {

  datatype Option<+T> = None | Some(value: T)
}
