/** Optional values: `null` results of the page scripts become `None`. */
module Wrappers {

  datatype Option<+T> = None | Some(value: T)

}
