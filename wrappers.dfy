/** Optional values: a JavaScript `null`/`undefined` or a missing lookup result. */
module Wrappers {

  datatype Option<+T> = None | Some(value: T)

}
