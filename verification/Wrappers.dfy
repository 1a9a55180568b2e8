/** Option, the shape of the source's `Option` results and of the `Result`s whose error carries no data. */
module Wrappers {
  datatype Option<+T> = None | Some(value: T)
}
