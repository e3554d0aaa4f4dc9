/** Optional values: a form control that may be absent from the page. */
module Wrappers {

  datatype Option<+T> = None | Some(value: T)
}
