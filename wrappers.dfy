/** The optional value used for the fields a mail only gets once it is presented. */
module Wrappers {
  datatype Option<+T> = None | Some(value: T)
}
