/** The usual optional value, for a `parseInt` that may give NaN and for partial runs. */
module Wrappers {

  datatype Option<T> = None | Some(value: T)
}
