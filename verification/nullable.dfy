/** Values that the component keeps as `null` until they are first set. */
module Nullable {

  /** `None` stands for JavaScript's `null`. */
  datatype Option<+T> = None | Some(value: T)
}
