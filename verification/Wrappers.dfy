/** The optional values the source writes as `undefined` or `null`. */
module Wrappers {
  datatype Option<+T> = None | Some(value: T)
}
