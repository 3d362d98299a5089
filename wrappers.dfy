/** The optional value used wherever the source returns None, null or NaN. */
module Wrappers {

  datatype Option<+T> = None | Some(value: T)
}
