/** The optional-value datatype used where the bot's Python code returns a
    value or signals that there is none (a failed regular-expression match,
    a failed `int()` conversion, an id that cannot be extracted). */
module Wrappers {

  datatype Option<+T> = None | Some(value: T)

}
