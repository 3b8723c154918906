/** Optional values: the result of the text parser of numeric coercion, and of cleaning one row. */
module Wrappers {

  datatype Option<+T> = None | Some(value: T)
}
