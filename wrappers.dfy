/** Optional values: the "missing" marker of the model (pandas NaN / NaT, a
    function that returns None). */
module Wrappers {

  datatype Option<+T> = None | Some(value: T)
}
