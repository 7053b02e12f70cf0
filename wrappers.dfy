/** Optional values, standing for JavaScript's `undefined` where the source
    may or may not have something. */
module Wrappers {

  datatype Option<+T> = None | Some(value: T)
}
