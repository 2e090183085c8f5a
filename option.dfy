/** The optional value used for absent gaze coordinates and for calls that raise. */
module Opt {
  datatype Option<+T> = None | Some(value: T)
}
