/** The optional value used wherever Python yields `None` or a failed match. */
module Wrappers {
  datatype Option<+T> = None | Some(value: T)
}
