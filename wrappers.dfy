/** Optional values and success/failure results, used for every place where the
    Python code returns None or raises an exception that its caller catches. */
module Wrappers {

  datatype Option<+T> = None | Some(value: T)

  /** `Err` carries the text that `str(e)` gives for the exception raised. */
  datatype Result<+T> = Ok(value: T) | Err(msg: string)
}
