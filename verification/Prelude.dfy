/** Shared vocabulary. */
module Prelude {
  /** A value that may be absent: a missing field, a null cell, or a call that threw. */
  datatype Option<+T> = None | Some(value: T)
}
