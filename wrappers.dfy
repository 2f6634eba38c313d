/** The Option type used wherever the script can produce JavaScript's `undefined`. */
module Wrappers {

  /** `None` stands for `undefined`; `Some(v)` for a defined value `v`. */
  datatype Option<+T> = None | Some(value: T)
}
