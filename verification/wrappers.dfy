/** The optional value used for an absent attachment and for a failed lookup. */
module Wrappers {

  /** `None` plays the part of JavaScript's `null`. */
  datatype Option<+T> = None | Some(value: T)
}
