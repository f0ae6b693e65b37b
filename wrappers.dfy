/** Small failure-carrying datatypes shared by every module of the model. */
module Wrappers {

  /** A nullable value: a database column that may hold NULL, or a JSON field that may be absent. */
  datatype Option<+T> = None | Some(value: T) {
    function GetOr(default: T): T {
      match this
      case Some(v) => v
      case None => default
    }
  }

  /** The outcome of an HTTP endpoint: a value, or an aborted request with its status code and message. */
  datatype Response<+T> = Ok(value: T) | Fail(code: int, message: string)

  /** Python truthiness of an optional integer: present and non-zero. */
  predicate Truthy(x: Option<int>) {
    x.Some? && x.value != 0
  }
}
