/** The optional-value type used by both the backend and the frontend model. */
module Wrappers {
  datatype Option<T> = None | Some(value: T)
}
