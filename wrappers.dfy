/** The optional value used for lookups that can miss and for operations that can throw. */
module Wrappers {

  datatype Option<+T> = None | Some(value: T)
}
