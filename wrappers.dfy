/** Optional values, standing in for C# references that may be null. */
module Wrappers {

  datatype Option<+T> = None | Some(value: T)
}
