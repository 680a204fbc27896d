/** The optional value used for absent request fields and for JSON `null`. */
module Wrappers {

  datatype Option<+T> = None | Some(value: T)

}
