/** The optional value used where the script either shows something or
    shows nothing. */
module Wrappers {

  datatype Option<+T> = None | Some(value: T)
}
