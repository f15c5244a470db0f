/** The two terminal error middlewares of src/controllers/errors.ts and the
    chain src/app.ts builds from them: an unmatched-route handler that passes
    a 404 error on, then handleCustomErrors, then handle500s. */
module ErrorHandlers {
  import opened JsValues
  import opened Express

  /** What an error middleware does with the error it is given. */
  datatype HandlerOutcome =
    | Respond(reply: Reply)        // sends a response
    | Forward(err: JsValue)        // calls next(err)
    | Throw                        // throws; Express passes the exception to the next error handler

  /** The exception thrown by reading a property of null or undefined. It
      carries no `status`. */
  const TypeError: JsValue := Obj(map["name" := Str("TypeError")])

  /** The error the catch-all route passes to `next`. */
  const RouteNotFound: JsValue := Obj(map["status" := Num(404), "msg" := Str("Route not found")])

  /** handle500s' answer. */
  const InternalServerError: Reply := Reply(Num(500), MsgBody(Str("Internal Server Error")))

  /** `err.status`, reading undefined where the read would throw. */
  function StatusOf(err: JsValue): JsValue {
    match Prop(err, "status")
    case Some(s) => s
    case None => Undefined
  }

  /** handleCustomErrors: an error with a truthy `status` is answered with that
      status and `{ msg: err.msg || 'Bad request' }`; any other error is
      passed on unchanged. */
  function HandleCustomErrors(err: JsValue): (r: HandlerOutcome)
    ensures r.Throw? <==> IsNullish(err)
    ensures r.Respond? <==> !IsNullish(err) && Truthy(StatusOf(err))
    ensures r.Respond? ==> err.Obj? && r.reply.status == StatusOf(err)
    ensures r.Respond? ==>
              r.reply.body == MsgBody(if Truthy(Get(err.props, "msg")) then Get(err.props, "msg") else Str("Bad request"))
    ensures r.Forward? ==> r.err == err && !Truthy(StatusOf(err))
  {
    match Prop(err, "status")
    case None => Throw
    case Some(status) =>
      if Truthy(status) then
        var msg := Prop(err, "msg").value;
        Respond(Reply(status, MsgBody(Or(msg, Str("Bad request")))))
      else
        Forward(err)
  }

  /** handle500s: whatever the error, 500 `{ msg: 'Internal Server Error' }`. */
  function Handle500s(err: JsValue): (r: Reply)
    ensures r.status == Num(500)
    ensures r.body == MsgBody(Str("Internal Server Error"))
  {
    InternalServerError
  }

  /** The chain as registered in src/app.ts: handleCustomErrors first, and
      whatever it passes on (or throws) reaches handle500s. */
  function ErrorChain(err: JsValue): (r: Reply)
    ensures HandleCustomErrors(err).Respond? ==> r == HandleCustomErrors(err).reply
    ensures !HandleCustomErrors(err).Respond? ==> r == InternalServerError
  {
    match HandleCustomErrors(err)
    case Respond(reply) => reply
    case Forward(e) => Handle500s(e)
    case Throw => Handle500s(TypeError)
  }

  /** Every error gets exactly one reply, whose status is the error's own
      truthy `status`, and 500 otherwise. */
  lemma ErrorChainStatus(err: JsValue)
    ensures ErrorChain(err).status == if Truthy(StatusOf(err)) then StatusOf(err) else Num(500)
    ensures !Truthy(StatusOf(err)) ==> ErrorChain(err) == InternalServerError
  {
  }

  /** An application error `{ status, msg }` with a truthy status and a
      non-empty message is written back exactly as given. */
  lemma ApplicationErrorVerbatim(status: JsValue, msg: string)
    requires Truthy(status) && msg != ""
    ensures ErrorChain(Obj(map["status" := status, "msg" := Str(msg)]))
            == Reply(status, MsgBody(Str(msg)))
  {
  }

  /** An error with a truthy status and no (or an empty) message gets the
      default message. */
  lemma DefaultMessage(status: JsValue, rest: Row)
    requires Truthy(status) && !Truthy(Get(rest, "msg"))
    ensures ErrorChain(Obj(rest["status" := status])) == Reply(status, MsgBody(Str("Bad request")))
  {
  }

  /** An unmatched route is answered 404 `{ msg: 'Route not found' }`. */
  lemma UnmatchedRoute()
    ensures ErrorChain(RouteNotFound) == Reply(Num(404), MsgBody(Str("Route not found")))
  {
  }

  /** A database error (it has a `code` but no truthy `status`) is not
      recognised by the custom handler and ends as a 500. */
  lemma StoreErrorIs500(err: Row)
    requires "code" in err && !Truthy(Get(err, "status"))
    ensures HandleCustomErrors(Obj(err)) == Forward(Obj(err))
    ensures ErrorChain(Obj(err)) == InternalServerError
  {
  }

  /** With a status code Node accepts (100 to 999), the client gets exactly
      the error's status. */
  lemma ErrorChainValidStatus(err: Row, code: int)
    requires Get(err, "status") == Num(code) && 100 <= code <= 999
    ensures ErrorChain(Obj(err)).status == Num(code)
  {
  }
}
