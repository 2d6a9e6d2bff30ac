/** The optional-value datatype shared by the fixture-runner model. */
module Wrappers {

  /** An optional value: the model's stand-in for a map lookup that may miss
      or an external call that may fail without a reason. */
  datatype Option<+T> = None | Some(value: T)
}
