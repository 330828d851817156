/** The optional value used where the source has `null` (a job that could not be built, a window the browser refused to open). */
module Wrappers {

  datatype Option<+T> = None | Some(value: T)
}
