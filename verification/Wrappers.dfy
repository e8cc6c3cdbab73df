/** The optional value that several modules use for a missing result. */
module Wrappers {

  datatype Option<+T> = None | Some(value: T)
}
