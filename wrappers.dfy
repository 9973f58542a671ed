/** Optional values: a nullable column, a query that may find nothing. */
module Wrappers {

  datatype Option<+T> = None | Some(value: T)

}
