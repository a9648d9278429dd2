/** The optional value used for the gallery's null-able state cells, for a
    record's optional thumbnail URL and for a response that failed. */
module Wrappers {

  datatype Option<+T> = None | Some(value: T)
}
