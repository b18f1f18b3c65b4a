/** The optional value used for the selection and for a placement that found no position. */
module Wrappers {

  datatype Option<+T> = None | Some(value: T)
}
