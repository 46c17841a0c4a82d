/** The optional value used wherever the source has `null`, `undefined` or a
    call that may fail. */
module Wrappers {
  datatype Option<+T> = None | Some(value: T)
}
