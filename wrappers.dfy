/** An optional value: a query parameter or field that may be absent. */
module Wrappers {

  datatype Option<+T> = None | Some(value: T)
}
