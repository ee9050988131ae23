/** The optional value used for attributes, query parameters and
    elements that the page may or may not contain. */
module Wrappers {
  datatype Option<+T> = None | Some(value: T)
}
