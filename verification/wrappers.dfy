/** The optional value the page uses for "null or a value". */
module Wrappers {

  datatype Option<+T> = None | Some(value: T)
}
