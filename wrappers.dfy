/** A value that may be absent: a missing dictionary key, an error without a payload. */
module Wrappers {

  datatype Option<+T> = None | Some(value: T)
}
