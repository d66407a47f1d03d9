/** A C# reference or lookup result that may be null. */
module Wrappers {
  datatype Nullable<T> = Null | Some(value: T)
}
