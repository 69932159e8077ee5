/** A value that may be absent. */
module Prelude {
  datatype Option<+T> = None | Some(value: T)
}
