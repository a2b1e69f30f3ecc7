/** The optional value used for the store client's nullable replies. */
module Wrappers {

  datatype Option<+T> = None | Some(value: T)
}
