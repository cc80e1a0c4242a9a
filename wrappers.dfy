/** The Option type shared by every module of the model. */
module Wrappers {

  /** A value that may be absent; in the model None stands for Go's nil error. */
  datatype Option<+T> = None | Some(value: T)
}
