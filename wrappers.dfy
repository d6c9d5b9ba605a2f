/** The optional value used for lookups that may find nothing (`findOne`
    returning null, a header that is absent, a token that does not verify). */
module Wrappers {

  datatype Option<+T> = None | Some(value: T)

}
