/** The optional value used for nullable columns. */
module Wrappers {

  /** `None` stands for SQL `NULL`. */
  datatype Option<+T> = None | Some(value: T)
}
