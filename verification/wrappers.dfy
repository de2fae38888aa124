/** The usual optional-value datatype. In this model `None` stands for a DOM
    element (or attribute) that is not in the document. */
module Wrappers {
  datatype Option<+T> = None | Some(value: T)
}
