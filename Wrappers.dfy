/** The optional value used wherever the application stores `null` or returns nothing. */
module Wrappers {

  datatype Option<+T> = None | Some(value: T)
}
