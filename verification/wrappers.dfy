/** What may be missing: null pointers, absent results. */
module Wrappers {

  datatype Option<T> = None | Some(value: T)
}
