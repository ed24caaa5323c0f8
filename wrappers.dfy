/** A value that may be absent: JavaScript's `null` / `undefined` for fields of the component. */
module Wrappers {

  datatype Option<+T> = None | Some(value: T)
}
