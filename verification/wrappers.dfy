/** A value that may be missing: an absent header or an absent form field. */
module Wrappers {

  datatype Option<+T> = None | Some(value: T)
}
