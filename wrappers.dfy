/** Small value wrappers shared by the whole model. */
module Wrappers {

  /** A value that may be missing (a JSON null or an absent property). */
  datatype Option<+T> = None | Some(value: T) {
    /** The value, or `default` when missing. */
    function GetOr(default: T): T {
      match this
      case Some(v) => v
      case None => default
    }
  }

  /** The outcome of an operation that may throw. */
  datatype Result<+T> = Ok(value: T) | Err(message: string)

  /** A field of a JSON request body: missing (`undefined`), an explicit `null`, or a value. */
  datatype Arg<+T> = Absent | Null | Given(value: T)

  /** JavaScript truthiness of a string field: given and not empty. */
  predicate Truthy(a: Arg<string>) {
    a.Given? && a.value != ""
  }

  /** A request field passed as a query parameter: `undefined` and `null` both leave the property unset. */
  function Stored<T>(a: Arg<T>): (r: Option<T>)
    ensures r.Some? <==> a.Given?
    ensures r.Some? ==> r.value == a.value
  {
    match a
    case Given(v) => Some(v)
    case _ => None
  }
}
