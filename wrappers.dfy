/** The optional-value shape shared by the modules of this model (a C# nullable reference). */
module Wrappers {
  datatype Option<+T> = None | Some(value: T)
}
