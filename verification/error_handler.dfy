/** The global error middleware: it turns a thrown error into a status code
    and a JSON body. */
module ErrorHandler {
  import opened Js

  /** The properties of a thrown error the middleware reads. A `statusCode`
      of `None` is a missing property; `Some(0)` is the falsy number 0. */
  datatype Error = Error(name: string, statusCode: Option<int>, message: JsValue, stack: JsValue, errors: JsValue)

  /** The three body shapes the middleware sends. */
  datatype Body =
    | ValidationFailed(message: string, errors: JsValue)
    | Unauthorized(message: string, error: JsValue)
    | Generic(message: string, error: JsValue)

  const FallbackStatus: int := 500
  const DefaultMessage: string := "Something went wrong on the server"
  const ProductionDetail: string := "Internal server error"

  /** `err.statusCode || 500` */
  function StatusOf(err: Error): (status: int)
    ensures status != 0
    ensures err.statusCode.Some? && err.statusCode.value != 0 ==> status == err.statusCode.value
    ensures err.statusCode == None || err.statusCode == Some(0) ==> status == FallbackStatus
  {
    match err.statusCode
    case Some(code) => if code != 0 then code else FallbackStatus
    case None => FallbackStatus
  }

  /** `err.message || 'Something went wrong on the server'` */
  function MessageOf(err: Error): (message: string)
    ensures message != ""
    ensures Truthy(err.message) ==> message == err.message.s
    ensures err.message in {Undefined, Null, Str("")} ==> message == DefaultMessage
  {
    OrElse(err.message, DefaultMessage)
  }

  /** The response for `err`; `production` says whether `NODE_ENV` is
      exactly `'production'`. */
  function Handle(err: Error, production: bool): (r: Response<Body>)
    ensures err.name == "ValidationError" ==>
              r == Response(400, ValidationFailed("Validation Error", err.errors))
    ensures err.name == "UnauthorizedError" ==>
              r == Response(401, Unauthorized("Authentication Error", Str("Invalid or expired token")))
    ensures err.name != "ValidationError" && err.name != "UnauthorizedError" ==>
              && r.body.Generic?
              && (r.status == if err.statusCode.Some? && err.statusCode.value != 0
                              then err.statusCode.value else FallbackStatus)
              && (r.body.message == if Truthy(err.message) then err.message.s
                                    else DefaultMessage)
              && (production ==> r.body.error == Str(ProductionDetail))
              && (!production ==> r.body.error == err.stack)
  {
    if err.name == "ValidationError" then
      Response(400, ValidationFailed("Validation Error", err.errors))
    else if err.name == "UnauthorizedError" then
      Response(401, Unauthorized("Authentication Error", Str("Invalid or expired token")))
    else
      Response(StatusOf(err), Generic(MessageOf(err), if production then Str(ProductionDetail) else err.stack))
  }

  /** A validation error's reply depends only on its `errors`: its own
      status code, message and stack, and the environment, are ignored. */
  lemma ValidationIgnoresStatusCode(err: Error, other: Error, production: bool, production': bool)
    requires err.name == other.name == "ValidationError" && err.errors == other.errors
    ensures Handle(err, production) == Handle(other, production')
    ensures Handle(err, production).status == 400
  {
  }

  /** An authorization error's reply is fixed, whatever else it carries. */
  lemma UnauthorizedIsFixed(err: Error, other: Error, production: bool, production': bool)
    requires err.name == other.name == "UnauthorizedError"
    ensures Handle(err, production) == Handle(other, production')
    ensures Handle(err, production).status == 401
  {
  }

  /** In production the generic reply never depends on the stack trace. */
  lemma ProductionHidesStack(err: Error, stack: JsValue)
    ensures Handle(err, true) == Handle(err.(stack := stack), true)
  {
  }
}
