/** JavaScript values as they arrive in a parsed JSON request body, the
    truthiness test the route handlers apply to them, and the shape of an
    HTTP response (status code plus body). */
module Js {

  /** A nullable column or an absent/present value. */
  datatype Option<+T> = None | Some(value: T)

  /** A field read out of `req.body`: the key may be missing (`undefined`),
      explicitly `null`, or a string. */
  datatype JsValue = Undefined | Null | Str(s: string)

  /** JavaScript truthiness restricted to the values above: `undefined`,
      `null` and the empty string are falsy, every other string is truthy. */
  predicate Truthy(v: JsValue)
  {
    v.Str? && v.s != ""
  }

  /** The expression `v || fallback`. */
  function OrElse(v: JsValue, fallback: string): (r: string)
    ensures Truthy(v) ==> r == v.s && r != ""
    ensures !Truthy(v) ==> r == fallback
  {
    if Truthy(v) then v.s else fallback
  }

  /** The expression `v || null`, as the database stores it. */
  function OrNull(v: JsValue): (r: Option<string>)
    ensures r.Some? <==> Truthy(v)
    ensures r.Some? ==> r.value == v.s
  {
    if Truthy(v) then Some(v.s) else None
  }

  /** How a body value is bound as a query parameter: `undefined` and `null`
      both become SQL NULL, a string is stored as it is (even when empty). */
  function AsColumn(v: JsValue): (r: Option<string>)
    ensures r.None? <==> !v.Str?
    ensures r.Some? ==> r.value == v.s
  {
    match v
    case Str(s) => Some(s)
    case _ => None
  }

  /** `description` is bound as it arrives while `name` goes through
      `|| null`: the two stored values differ on exactly one input, the empty
      string, which the first stores as `""` and the second as NULL. */
  lemma ColumnAndOrNullDifferOnlyOnEmpty(v: JsValue)
    ensures AsColumn(v) != OrNull(v) <==> v == Str("")
    ensures AsColumn(Str("")) == Some("") && OrNull(Str("")) == None
  {
  }

  /** What `res.status(code).json(body)` sends; `res.json(body)` alone sends 200. */
  datatype Response<+B> = Response(status: int, body: B)
}
