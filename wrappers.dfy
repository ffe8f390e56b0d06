/** The optional value used for absent cells and absent record fields. */
module Wrappers {
  datatype Option<+T> = None | Some(value: T)
}
