/** The optional value used where PHP returns `false` or `null` instead of a
    result (strpos, get_option, an unset global). */
module Wrappers {

  datatype Option<+T> = None | Some(value: T)
}
