/** The absent-or-present value used wherever the viewer reads `null`/`undefined`. */
module Wrappers {
  datatype Option<+T> = None | Some(value: T)
}
