/** The optional value used wherever the Python code returns `None` or a regex search fails. */
module Wrappers {

  datatype Option<+T> = None | Some(value: T)

}
