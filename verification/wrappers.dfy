/** Optional values, used where the source uses `null`, a zero handle or an
    exception to say "nothing". */
module Wrappers {

  datatype Option<+T> = None | Some(value: T)
}
