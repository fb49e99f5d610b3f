/** A value, or none. */
module Optionals {

  datatype Option<+T> = None | Some(value: T)
}
