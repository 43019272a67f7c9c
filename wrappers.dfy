/** The optional value both cores use: Python's `None` and TypeScript's `null`. */
module Wrappers {

  datatype Option<+T> = None | Some(value: T)
}
