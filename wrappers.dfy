/** The optional value shared by the modules of the analysis model. */
module Wrappers {

  /** `None` stands for JavaScript's `null`/`undefined` and Python's `None`. */
  datatype Option<+T> = None | Some(value: T)
}
