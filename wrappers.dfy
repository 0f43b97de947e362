/** The optional value used by the roster model for "found / not found". */
module Wrappers {

  datatype Option<+T> = None | Some(value: T)
}
