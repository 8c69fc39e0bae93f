/** A value or nothing: the source's `Option`, and its panics and refusals. */
module Wrappers {

  datatype Option<+T> = None | Some(value: T)
}
