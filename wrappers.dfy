/** The optional value used for command-line arguments that may be omitted. */
module Wrappers {

  /** An argument that was not given is None; one that was given is Some(text). */
  datatype Option<+T> = None | Some(value: T)
}
