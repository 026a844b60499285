/** The optional value that `Array.prototype.find` and `findIndex` stand for. */
module Wrappers {
  datatype Option<T> = None | Some(value: T)
}
