/** A value that may be missing: the model's stand-in for a Python call that
    raised, or for a dict returned empty to signal failure. */
module Wrappers {

  datatype Option<+T> = None | Some(value: T)
}
