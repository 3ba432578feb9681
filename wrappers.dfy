/** The optional value used where the geometry code can produce "no point". */
module Wrappers {

  datatype Option<+T> = None | Some(value: T)

}
