/** A value, or none where the program gives up. */
module Wrappers {

  datatype Option<T> = None | Some(value: T)
}
