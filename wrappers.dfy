/** Optional values: a Bevy entity either has a component or it does not. */
module Wrappers {

  datatype Option<+T> = None | Some(value: T)
}
