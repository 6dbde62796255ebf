/** An optional value: the null of the modelled program. */
module Wrappers {
  datatype Option<+T> = None | Some(value: T)
}
