/** The value of a JavaScript expression that may be `undefined`. */
module Wrappers {

  datatype Option<+T> = None | Some(value: T)
}
