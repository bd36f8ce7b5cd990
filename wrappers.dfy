/** The Option datatype used for lookups that can miss. */
module Wrappers {

  /** `None` stands for JavaScript's `undefined` result of a failed lookup. */
  datatype Option<+T> = None | Some(value: T)
}
