/** The optional value used wherever the source tests membership before reading. */
module Wrappers {

  datatype Option<+T> = None | Some(value: T)
}
