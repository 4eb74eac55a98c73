/** The optional value used where the game returns a possibly missing tile. */
module Wrappers {

  datatype Option<+T> = None | Some(value: T)

}
