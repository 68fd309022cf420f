/** Optional values and computations that may raise, as the scripts' Python
    code returns `None` or raises an exception. */
module Wrappers {

  datatype Option<T> = None | Some(value: T)

  /** The outcome of a step that may raise: `Fail` carries the Python
      exception class that would be raised. */
  datatype Result<T> = Ok(value: T) | Fail(error: string)
}
