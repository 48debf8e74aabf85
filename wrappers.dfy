/** Optional values and results with an error, shared by the other modules. */
module Wrappers {

  datatype Option<+T> = None | Some(value: T) {
    function GetOr(default: T): T {
      match this
      case Some(v) => v
      case None => default
    }
  }

  datatype Result<+T, +E> = Ok(value: T) | Err(error: E)

  /** JavaScript truthiness of an optional string: present and not empty. */
  predicate Truthy(v: Option<string>) {
    v.Some? && v.value != ""
  }
}
