/** Small helper datatypes shared by the task models. */
module Wrappers {

  /** An optional value: `None` when nothing is available. */
  datatype Option<+T> = None | Some(value: T)
}
