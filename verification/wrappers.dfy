/** The nullable-reference and may-throw shapes the model needs. */
module Wrappers {

  /** A C# reference that may be null (None), or a value that may be absent. */
  datatype Option<+T> = None | Some(value: T)
}
