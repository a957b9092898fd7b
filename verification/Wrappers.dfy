/** The failure-carrying datatype shared by every module. */
module Wrappers {
  /** `None` stands for the null pointer wherever a pointer may be null. */
  datatype Option<+T> = None | Some(value: T)
}
