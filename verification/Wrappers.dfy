/** The optional value used throughout the model for the source's `None` and for a raised error. */
module Wrappers {

  datatype Option<+T> = None | Some(value: T)
}
