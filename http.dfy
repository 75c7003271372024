/**
 * What a handler writes back, and the wrapper that turns a handler's returned error
 * into a 400 response and refuses requests without an attached identity.
 */
module Http {
  import opened Wrappers
  import opened Types

  const StatusOK: int := 200
  const StatusBadRequest: int := 400
  const StatusUnauthorized: int := 401

  /** The identity the authorization middleware attaches to a request. */
  datatype AuthContext = AuthContext(accountId: int, email: string)

  /** The `Set-Cookie` the login handler sends. */
  datatype Cookie = Cookie(
    name: string,
    value: string,
    httpOnly: bool,
    secure: bool,
    sameSiteStrict: bool,
    maxAge: int)

  /** The JSON bodies of the modelled responses. */
  datatype Body =
    | ApiError(message: string)             // {"error": message}
    | HandlerError(cause: Error)            // {"error": the error's text}
    | LoginMessage(message: string)         // {"message": message}
    | TransferEcho(request: TransferRequest) // the transfer request, echoed

  datatype Response = Response(status: int, body: Body, cookie: Option<Cookie>)

  /** What a handler does: it writes a response itself, or returns an error without writing. */
  datatype HandlerRun = Wrote(response: Response) | Failed(error: Error)

  /** The response of a request the middleware refuses. */
  const Unauthorized: Response := Response(StatusUnauthorized, ApiError("Unauthorized"), None)

  /**
   * The wrapper every route goes through. With `requireAuth`, a request that carries no identity
   * is answered 401 and the handler is not run; otherwise the handler runs, and an error it returns
   * is answered 400 with the error's text.
   */
  function HandleFunc(requireAuth: bool, ctx: Option<AuthContext>, run: HandlerRun): (resp: Response)
    ensures requireAuth && ctx.None? ==> resp == Unauthorized
    ensures (!requireAuth || ctx.Some?) && run.Failed? ==>
      resp.status == StatusBadRequest && resp.body == HandlerError(run.error) && resp.cookie == None
    ensures (!requireAuth || ctx.Some?) && run.Wrote? ==> resp == run.response
  {
    if requireAuth && ctx.None? then Unauthorized
    else match run
      case Failed(e) => Response(StatusBadRequest, HandlerError(e), None)
      case Wrote(r) => r
  }

  /** A request refused for want of an identity gets the same answer whatever the handler would have done. */
  lemma HandlerNotRunWithoutIdentity(ctx: Option<AuthContext>, run1: HandlerRun, run2: HandlerRun)
    requires ctx.None?
    ensures HandleFunc(true, ctx, run1) == HandleFunc(true, ctx, run2)
  {
  }
}
