/** Optional values and error results, used for the null arguments and the exceptions
    of the watcher's configuration calls. */
module Wrappers {

  /** A value that may be absent; `None` stands for a Java `null`. */
  datatype Option<+T> = None | Some(value: T)

  /** Either the value a call returns or the error it raises. */
  datatype Result<+T, +E> = Success(value: T) | Failure(error: E)
}
