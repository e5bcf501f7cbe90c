/** The optional value used wherever the modelled code can come back empty-handed
    (a package lookup with no answer, a string that does not parse). */
module Wrappers {

  datatype Option<+T> = None | Some(value: T)
}
