/** The optional value used wherever the game reports "nothing" through a flag. */
module Wrappers {

  datatype Option<T> = None | Some(value: T)
}
