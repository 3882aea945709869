/** The conventional Some/None datatype, used where the JavaScript source
    yields `undefined` for a missing property. */
module Wrappers {

  datatype Option<+T> = None | Some(value: T)
}
