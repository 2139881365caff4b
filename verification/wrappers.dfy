/** A value that may be absent: a nullable column, an optional field, a join that found no row. */
module Wrappers {

  datatype Option<+T> = None | Some(value: T)
}
