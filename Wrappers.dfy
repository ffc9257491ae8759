/** Optional values, standing for .NET's `out`-parameter parses and nullable references. */
module Wrappers {

  datatype Option<+T> = None | Some(value: T)
}
