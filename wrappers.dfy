/** The optional value used throughout the model for "absent" (undefined, null, a
    missing key or a failed lookup). */
module Wrappers {
  datatype Option<T> = None | Some(value: T)
}
