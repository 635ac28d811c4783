/** Option, for results that may be absent: a construction that failed, a frame that could not be packed. */
module Wrappers {

  datatype Option<+T> = None | Some(value: T)

}
