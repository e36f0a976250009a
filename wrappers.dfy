/** Optional values, standing for `undefined`/`null` in the modelled code. */
module Wrappers {

  datatype Option<+T> = None | Some(value: T)
}
