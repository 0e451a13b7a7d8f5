/** The optional value used wherever the source reads a key that may be missing
    (`undefined` in JavaScript). */
module Wrappers {
  datatype Option<+T> = None | Some(value: T)
}
