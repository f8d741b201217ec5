/** SQL NULL is `None`; a thrown exception is `Fail`. */
module Wrappers {

  datatype Option<+T> = None | Some(value: T)

  datatype Outcome<+E> = Pass | Fail(error: E)
}
