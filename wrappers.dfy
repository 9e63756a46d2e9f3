/** Optional values and pass/fail outcomes shared by the board and the controller. */
module Wrappers {

  /** `None` stands for the initial `null` of a field, and for an `undefined` position handed to `redrawPositions`. */
  datatype Option<+T> = None | Some(value: T)

  /** The result of an operation that may throw. */
  datatype Outcome<+E> = Pass | Fail(error: E)
}
