/** The optional value used for JavaScript's "property may be absent" (`x?: T`). */
module Wrappers {

  datatype Option<+T> = None | Some(value: T)
}
