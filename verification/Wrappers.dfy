/** What is not particular to any part of the program. */
module Wrappers {
  datatype Option<+T> = None | Some(value: T)
}
