/** Optional values shared by the modules of this model. */
module Wrappers {

  /** A value that may be absent: a store call that failed, a form field that was not sent. */
  datatype Option<+T> = None | Some(value: T)
}
