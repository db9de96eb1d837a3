/**
 * What the route handlers receive: header values as `headers.get` returns
 * them (a string, or absent), and a JSON body as `request.json()` yields it.
 * JavaScript truthiness is spelled out because every guard in the handlers
 * (`if (!userId)`, `a || b`) is written with it.
 */
module Http {
  import opened Wrappers

  /** A JSON value. Objects and arrays are `Composite`: the handlers only test them for truthiness. */
  datatype Json = Undefined | Null | Bool(b: bool) | Num(n: real) | Str(s: string) | Composite

  /** JavaScript truthiness of a value (JSON has no NaN, so a number is falsy only when it is 0). */
  predicate Truthy(v: Json)
  {
    match v
    case Undefined => false
    case Null => false
    case Bool(b) => b
    case Num(n) => n != 0.0
    case Str(s) => s != ""
    case Composite => true
  }

  /**
   * The outcome of `await request.json()`: text that is not JSON (a SyntaxError),
   * the JSON literal `null` (destructuring it throws a TypeError), or a value to
   * destructure. A top-level JSON value that is not an object destructures as an
   * object without fields.
   */
  datatype Body = Malformed | NullBody | Object(fields: map<string, Json>)

  /** A destructured property: `undefined` when the body has no such key. */
  function Field(fields: map<string, Json>, name: string): Json
  {
    if name in fields then fields[name] else Undefined
  }

  /** A header value as `headers.get(name)` returns it; `None` is `null`. */
  datatype Headers = Headers(authorization: Option<string>, xApiKey: Option<string>, xUserId: Option<string>)

  /** Truthiness of a header value: present and non-empty. */
  predicate Present(h: Option<string>)
  {
    h.Some? && h.value != ""
  }

  /**
   * What a handler answers: the status code, the `data` payload when there is
   * one, and whether the body carries the internal error text (the message
   * strings themselves are not modelled).
   */
  datatype Reply<D> = Reply(status: int, data: Option<D>, detail: bool)

  /** A reply with only a status code. */
  function Status<D>(code: int): Reply<D>
  {
    Reply(code, None, false)
  }
}
