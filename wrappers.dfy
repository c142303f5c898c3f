/** The optional value used for operations of the engine that can fail. */
module Wrappers {

  datatype Option<+T> = None | Some(value: T)
}
