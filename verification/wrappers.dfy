/** A value that may be missing: the model of a C# reference that may be null. */
module Wrappers {

  datatype Option<+T> = None | Some(value: T)
}
