/** The "value or nothing" type used wherever the analyzer returns None. */
module Wrappers {

  datatype Option<+T> = None | Some(value: T)
}
