/** The optional value used for the source's `null` / `undefined` / `NaN` results. */
module Wrappers {
  datatype Option<+T> = None | Some(value: T)
}
