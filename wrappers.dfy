/** Option, used for the nullable columns and values of the application. */
module Wrappers {

  datatype Option<+T> = None | Some(value: T)
}
