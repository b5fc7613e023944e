/** The optional value used for failed parses and dictionary lookups. */
module Wrappers {

  datatype Option<+T> = None | Some(value: T)
}
