/** Optional values, used where the source yields `undefined` (a missed
    lookup, an absent match). */
module Wrappers {

  datatype Option<+T> = None | Some(value: T)
}
