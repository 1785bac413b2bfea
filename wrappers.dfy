/** The optional value used for PHP's `null` results. */
module Wrappers {

  datatype Option<+T> = None | Some(value: T)
}
