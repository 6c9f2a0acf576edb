/** The optional value used throughout the model for JSON keys whose value may be missing. */
module Wrappers {

  datatype Option<+T> = None | Some(value: T)

}
