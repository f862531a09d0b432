/** A minimal optional-value datatype, used for lookups that may find nothing
    and for transitions that may or may not report an evicted entry. */
module Wrappers {

  datatype Option<+T> = None | Some(value: T)
}
