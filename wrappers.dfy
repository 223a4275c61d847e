/** The optional value used for PHP's nullable results (an unset array key, a failed `parse_url`). */
module Wrappers {

  datatype Option<+T> = None | Some(value: T)
}
