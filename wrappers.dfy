/** The optional value used wherever the scripts return or store `None`. */
module Wrappers {
  datatype Option<+T> = None | Some(value: T)
}
