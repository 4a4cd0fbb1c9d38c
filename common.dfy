/**
 * Values shared by the request handlers and the client cache: an optional value,
 * the JSON values a request body can carry together with JavaScript's notion of
 * truthiness, the parsed request body, and the response envelope.
 */
module Common {

  datatype Option<+T> = None | Some(value: T)

  /** The caller's id, the `sub` claim of the verified session token. */
  type UserId = string

  /**
   * A JSON value as it arrives in a request body. Objects and arrays nested inside a
   * field are not looked into by any handler, so they are one opaque case.
   */
  datatype Json =
    | Undefined            // the field is absent
    | Null
    | Bool(b: bool)
    | Num(n: int)
    | Str(s: string)
    | Composite            // a nested object or array

  /** JavaScript truthiness, as used by `!name`, `!location_id` and `note || null`. */
  predicate Truthy(v: Json) {
    match v
    case Undefined => false
    case Null => false
    case Bool(b) => b
    case Num(n) => n != 0
    case Str(s) => s != []
    case Composite => true
  }

  /** The value of `v || null`. */
  function OrNull(v: Json): (r: Json)
    ensures Truthy(v) ==> r == v
    ensures !Truthy(v) ==> r == Null
  {
    if Truthy(v) then v else Null
  }

  /**
   * The parsed request body: a JSON object, or any other JSON value (including
   * `undefined` for an empty body).
   */
  datatype Body = Object(fields: map<string, Json>) | Primitive(v: Json)

  /**
   * The value bound by `const { key } = body`. Destructuring `null` or `undefined`
   * throws a TypeError, which is `None` here; any other non-object yields `undefined`.
   */
  function Member(body: Body, key: string): (r: Option<Json>)
    ensures r.None? <==> body.Primitive? && (body.v == Undefined || body.v == Null)
    ensures body.Object? && key in body.fields ==> r == Some(body.fields[key])
    ensures r.Some? && r.value != Undefined ==> body.Object? && key in body.fields
  {
    match body
    case Object(fields) => Some(if key in fields then fields[key] else Undefined)
    case Primitive(v) => if v == Undefined || v == Null then None else Some(Undefined)
  }

  /**
   * What a handler answers: the `{ success, data }` envelope, an error raised with
   * `createError({ statusCode, message })`, or an exception the handler does not
   * catch (the framework answers it with a generic 500).
   */
  datatype Response<T> =
    | Envelope(success: bool, data: T)
    | HttpError(statusCode: nat, message: string)
    | Uncaught

  const NotLoggedIn: string := "未登入"

  /** The error every handler raises when there is no authenticated user. */
  function Unauthorized<T>(): (r: Response<T>)
    ensures r.HttpError? && r.statusCode == 401 && r.message == NotLoggedIn
  {
    HttpError(401, NotLoggedIn)
  }
}
