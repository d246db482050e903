/** The optional value used for the results of the signer and of header parsing. */
module Wrappers {
  datatype Option<+T> = None | Some(value: T)
}
