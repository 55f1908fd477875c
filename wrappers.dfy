/** The optional value the engine returns where the Python code returns a node or None. */
module Wrappers {
  datatype Option<+T> = None | Some(value: T)
}
