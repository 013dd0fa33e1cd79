/** The optional value used for absent fields (a bye week's away team, an unset init message). */
module Wrappers {

  datatype Option<+T> = None | Some(value: T)
}
