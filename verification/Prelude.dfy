/** The one datatype every other module shares: a value that may be missing. */
module Prelude {
  datatype Option<+T> = None | Some(value: T)
}
