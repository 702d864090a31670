/** The optional value used for the component's nullable state and results. */
module Wrappers {
  datatype Option<+T> = None | Some(value: T)
}
