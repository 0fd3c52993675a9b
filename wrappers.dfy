/** Stock optional-value type: None stands for a Python exception or a null result. */
module Wrappers {

  datatype Option<+T> = None | Some(value: T)
}
