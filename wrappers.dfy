/** Optional values: a field that a fragment record may or may not carry yet. */
module Wrappers {

  datatype Option<+T> = None | Some(value: T)
}
