/** Small helpers shared by every module of the model. */
module Util {

  /** A value that may be absent: JavaScript's `null` / `undefined` results. */
  datatype Option<+T> = None | Some(value: T)
}
