/** The optional value used by the parsing oracle and by the decimal reader. */
module Wrappers {

  datatype Option<+T> = None | Some(value: T)
}
