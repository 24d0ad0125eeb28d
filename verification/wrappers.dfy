/** Optional values: an empty handler slot is `None`, a registered one `Some(h)`. */
module Wrappers {

  datatype Option<+T> = None | Some(value: T)
}
