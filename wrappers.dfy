/** Optional values (JavaScript `null`/`undefined` versus a value) and
    results of operations that throw in the browser. */
module Wrappers {

  datatype Option<+T> = None | Some(value: T) {
    function GetOr(default: T): T {
      match this
      case Some(v) => v
      case None => default
    }
  }

  /** The browser's `btoa`/`atob` throw a DOMException; `Failure` carries its name. */
  datatype Result<+T> = Success(value: T) | Failure(error: string)
}
