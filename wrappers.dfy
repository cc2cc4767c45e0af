/** Option, used for the values the scripts obtain from engines that may fail or be absent. */
module Wrappers {

  datatype Option<+T> = None | Some(value: T)
}
