/** The conventional Some/None datatype, standing in for JavaScript's
    `undefined` and `null`. */
module Wrappers {

  datatype Option<+T> = None | Some(value: T)
}
