/** The optional-value type used for the keys an export may leave out. */
module Wrappers {

  datatype Option<+T> = None | Some(value: T)
}
