/** The usual optional-value datatype: `None` stands for JavaScript's
    `null`/`undefined` and for a call that threw. */
module Wrappers {

  datatype Option<+T> = None | Some(value: T)

}
