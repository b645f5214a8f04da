/** Optional values: the source's `None` (an unset start time, an absent file). */
module Wrappers {

  datatype Option<+T> = None | Some(value: T)
}
