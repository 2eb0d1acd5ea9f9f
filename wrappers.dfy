/** The optional value used wherever the source has `null`, an absent array or "emits nothing". */
module Wrappers {
  datatype Option<+T> = None | Some(value: T)
}
