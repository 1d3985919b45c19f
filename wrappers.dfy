/** The optional value used for input that may fail to parse. */
module Wrappers {

  datatype Option<+T> = None | Some(value: T)
}
