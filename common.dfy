/** Values shared by the server model: optional request fields and the
    replies a route handler sends back. */
module Common {

  /** A request field or record attribute that may be absent (`undefined`). */
  datatype Option<T> = None | Some(value: T) {
    function GetOr(default: T): T {
      match this
      case Some(v) => v
      case None => default
    }
  }

  /** One entry of a 400 validation reply: `{ field, message }`. */
  datatype FieldError = FieldError(field: string, message: string)

  /** What a handler answers: a success body with its status, a failure with
      its status and `error` text, or the list of validation errors. */
  datatype Reply<T> =
    | Ok(status: nat, value: T)
    | Fail(status: nat, error: string)
    | Invalid(errors: seq<FieldError>)

  const OK: nat := 200
  const CREATED: nat := 201
  const BAD_REQUEST: nat := 400
  const FORBIDDEN: nat := 403
  const NOT_FOUND: nat := 404
  const SERVER_ERROR: nat := 500

  /** JavaScript truthiness of an optional string: present and not empty. */
  predicate Truthy(o: Option<string>) {
    o.Some? && o.value != ""
  }
}
