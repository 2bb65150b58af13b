/**
 * Vocabulary shared by the request handlers: optional request fields,
 * JavaScript truthiness of a string field, the HTTP status codes the
 * controllers answer with, and the shape of a JSON reply.
 */
module Http {

  datatype Option<+T> = None | Some(value: T)

  /** The identifier of a user document, as carried by `req.user._id` and stored in lists. */
  type UserId = nat

  const StatusOk: nat := 200
  const StatusCreated: nat := 201
  const StatusBadRequest: nat := 400
  const StatusUnauthorized: nat := 401
  const StatusNotFound: nat := 404
  const StatusServerError: nat := 500

  /** A JSON response body: either a document or a `{ message }` object. */
  datatype Body<+T> = Doc(doc: T) | Msg(message: string)

  datatype Reply<+T> = Reply(status: nat, body: Body<T>)

  /**
   * A string request field is truthy in JavaScript exactly when it is
   * present and not the empty string.
   */
  predicate Truthy(field: Option<string>)
  {
    field.Some? && field.value != ""
  }

  /**
   * `field || fallback` for an optional string field: the request value
   * when it is truthy, the fallback otherwise.
   */
  function Keep(field: Option<string>, fallback: Option<string>): (r: Option<string>)
    ensures Truthy(field) ==> r == field
    ensures !Truthy(field) ==> r == fallback
  {
    if Truthy(field) then field else fallback
  }

  /** `field || fallback` for a string field whose fallback is always present. */
  function OrElse(field: Option<string>, fallback: string): (r: string)
    ensures Truthy(field) ==> r == field.value
    ensures !Truthy(field) ==> r == fallback
    ensures r != "" || fallback == ""
  {
    Keep(field, Some(fallback)).value
  }

  /**
   * `parseInt(query) || fallback`: the parsed query value is None when
   * parseInt yields NaN (missing or non-numeric text); NaN and 0 are falsy.
   */
  function NumberOr(parsed: Option<int>, fallback: nat): (r: int)
    ensures parsed.None? ==> r == fallback
    ensures parsed == Some(0) ==> r == fallback
    ensures parsed.Some? && parsed.value != 0 ==> r == parsed.value
    ensures fallback >= 1 && (parsed.None? || parsed.value >= 0) ==> r >= 1
  {
    if parsed.Some? && parsed.value != 0 then parsed.value else fallback
  }
}
