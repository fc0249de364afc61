/** Wrapper used for values that may be absent: an
    unreadable manifest, a regex that does not match, a game that is not
    installed. */
module Wrappers {

  datatype Option<+T> = None | Some(value: T)
}
