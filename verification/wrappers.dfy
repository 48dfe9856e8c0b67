/** The Option datatype used for OS query results and parse results. */
module Wrappers {

  datatype Option<+T> = None | Some(value: T)
}
