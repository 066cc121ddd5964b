/** A value or nothing: the refusals of the modelled operations. */
module Wrappers {
  datatype Option<T> = None | Some(value: T)
}
