/** The Some/None datatype used for lookups that may fail and for the
    outcome of one call to the fake-data provider. */
module Wrappers {

  datatype Option<+T> = None | Some(value: T)
}
