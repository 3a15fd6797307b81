/** Optional values, used for the failure paths of the parsers and lookups. */
module Wrappers {

  datatype Option<+T> = None | Some(value: T)

}
