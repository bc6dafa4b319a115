/** The optional value used wherever the application can come back with nothing. */
module Wrappers {

  datatype Option<+T> = None | Some(value: T)
}
