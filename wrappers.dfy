/** The optional value used for SQL NULL / JavaScript undefined and for
    lookups that may find nothing. */
module Wrappers {

  datatype Option<+T> = None | Some(value: T)
}
