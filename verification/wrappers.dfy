/** The optional value used for "the index of the first match, if any". */
module Wrappers {

  datatype Option<+T> = None | Some(value: T)

}
