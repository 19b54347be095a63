/** Optional values: a missing cell of the review table, or an analysis result
    that has not been computed yet. */
module Wrappers {

  datatype Option<+T> = None | Some(value: T)
}
