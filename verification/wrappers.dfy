/** The optional-value datatype used for lookups that may find nothing
    (the source's `None` / `.first()` on an empty query). */
module Wrappers {

  datatype Option<+T> = None | Some(value: T)
}
