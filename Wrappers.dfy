/** Optional values: `None` stands for a call that throws instead of
    returning. */
module Wrappers {
  datatype Option<+T> = None | Some(value: T)
}
