/** The usual optional value, used for the partial operations of the model
    (a line that does not parse, a key that is not in the table, a mean over
    no pixels). */
module Wrappers {

  datatype Option<+T> = None | Some(value: T)
}
