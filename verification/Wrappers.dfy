/** What more than one module needs. */
module Wrappers {
  datatype Option<+T> = None | Some(value: T)
}
