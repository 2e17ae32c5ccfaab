/** The optional value the JavaScript sources express with `undefined`. */
module Wrappers {

  datatype Option<+T> = None | Some(value: T)
}
