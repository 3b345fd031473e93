/** The optional value used throughout the model for C# references that may be null. */
module Wrappers {
  datatype Option<+T> = None | Some(value: T)
}
