/** The optional value used for absent children, absent keys and failed decodes. */
module Wrappers {
  datatype Option<+T> = None | Some(value: T)
}
