/** Optional values: the model's stand-in for JavaScript's NaN, null and
    "no regular-expression match". */
module Wrappers {

  datatype Option<+T> = None | Some(value: T)
}
