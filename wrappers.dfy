/** `null`/`undefined` versus a value, as the front-end code returns them. */
module Wrappers {
  datatype Option<T> = None | Some(value: T)
}
