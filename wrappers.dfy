/** The optional value used wherever the extension deals with something that may be absent
    (`undefined` in the extension, a parse that failed, a missing field). */
module Wrappers {

  datatype Option<+T> = None | Some(value: T)
}
