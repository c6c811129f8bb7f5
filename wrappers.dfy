/** Small failure-carrying datatypes shared by the whole model. */
module Wrappers {

  /** A value that may be absent: JavaScript's `null`/`undefined`, or a row
      that a lookup did not find. */
  datatype Option<+T> = None | Some(value: T)
}
