/** The optional-value datatype shared by the other modules: a JavaScript
    value that may be `null`/`undefined` becomes `None`. */
module Wrappers {

  datatype Option<+T> = None | Some(value: T)
}
