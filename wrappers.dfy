/** The optional value used where the model has an outcome that may be absent. */
module Wrappers {
  datatype Option<+T> = None | Some(value: T)
}
