/** The optional value used for absent headers, unset configuration and failed decodes. */
module Wrappers {
  datatype Option<+T> = None | Some(value: T)
}
