/** The optional value used wherever the Python code allows None. */
module Wrappers {

  datatype Option<+T> = None | Some(value: T)
}
