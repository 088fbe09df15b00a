/** The optional value used across the model: JavaScript's `null`/`undefined` and NaN results. */
module Wrappers {

  datatype Option<+T> = None | Some(value: T)
}
