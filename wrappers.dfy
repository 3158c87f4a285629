/** Optional values, used for the fields a record may lack and for controls a page may not have. */
module Wrappers {
  datatype Option<+T> = None | Some(value: T)
}
