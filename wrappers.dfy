/** The optional value used for every operation of the model that may fail. */
module Wrappers {

  datatype Option<+T> = None | Some(value: T)
}
