/**
 * The authorization middleware: the chain of checks between a request and the handler
 * behind an authenticated route. Signature verification, expiry and claim decoding are
 * abstracted into a `verify` function on the token string.
 */
module Auth {
  import opened Wrappers
  import opened Types
  import opened Storage
  import opened Http

  /** A value in the token's claims, as JSON decoding produces it: numbers are floating point. */
  datatype ClaimValue = Number(n: real) | Text(s: string) | OtherValue

  /** The token's claims: a JSON object, or a claims value of some other shape. */
  datatype Claims = MapClaims(entries: map<string, ClaimValue>) | OtherClaims

  /** The outcome of parsing and verifying a token: rejected (bad signature, expired, malformed), or its claims. */
  datatype Verification = Invalid | Verified(claims: Claims)

  /** The parts of an HTTP request the middleware reads. */
  datatype Request = Request(authorization: string, tokenCookie: Option<string>)

  /** Why the middleware refused a request. */
  datatype Denial = TokenNotFound | InvalidToken | InvalidClaims | InvalidAccountId | InvalidEmail | UserNotFound | EmailMismatch

  datatype Decision = Deny(reason: Denial) | Allow(ctx: AuthContext)

  /** The token string: the `Authorization` header, unless a `token` cookie is present, whose value then wins. */
  function TokenString(req: Request): string
  {
    match req.tokenCookie
    case Some(value) => value
    case None => req.authorization
  }

  /** Go's conversion of a float64 to int: the fractional part is dropped, toward zero. */
  function TruncToInt(x: real): (r: int)
    ensures 0.0 <= x ==> r as real <= x < r as real + 1.0
    ensures x < 0.0 ==> r as real - 1.0 < x <= r as real
  {
    if x >= 0.0 then x.Floor else -((-x).Floor)
  }

  /**
   * `ctx` is an identity the request proves: its token is non-empty and verifies, its claims hold a
   * numeric id naming `ctx.accountId` and the string `ctx.email`, and the stored account with that id
   * still has that email.
   */
  ghost predicate Proves(req: Request, verify: string -> Verification, t: Table, ctx: AuthContext)
  {
    var token := TokenString(req);
    && token != ""
    && verify(token).Verified?
    && verify(token).claims.MapClaims?
    && var m := verify(token).claims.entries;
    && "id" in m && m["id"].Number? && TruncToInt(m["id"].n) == ctx.accountId
    && "email" in m && m["email"] == Text(ctx.email)
    && ctx.accountId in t && t[ctx.accountId].email == ctx.email
  }

  /** The middleware's decision: the checks in order, the first that fails refusing the request. */
  function AuthWithJWT(req: Request, verify: string -> Verification, t: Table): (d: Decision)
    ensures d.Allow? ==> Proves(req, verify, t, d.ctx)
    ensures forall ctx :: Proves(req, verify, t, ctx) ==> d == Allow(ctx)
  {
    var token := TokenString(req);
    if token == "" then Deny(TokenNotFound)
    else match verify(token)
      case Invalid => Deny(InvalidToken)
      case Verified(OtherClaims) => Deny(InvalidClaims)
      case Verified(MapClaims(m)) =>
        if "id" !in m || !m["id"].Number? then Deny(InvalidAccountId)
        else if "email" !in m || !m["email"].Text? then Deny(InvalidEmail)
        else
          var accountId := TruncToInt(m["id"].n);
          var email := m["email"].s;
          match FindById(t, accountId)
          case Failure(_) => Deny(UserNotFound)
          case Success(account) =>
            if account.email != email then Deny(EmailMismatch)
            else Allow(AuthContext(accountId, email))
  }

  /**
   * An authenticated route: the middleware, then the wrapper, then the handler, which receives the
   * identity the middleware attached.
   */
  function Serve(req: Request, verify: string -> Verification, t: Table, handler: AuthContext -> HandlerRun): (resp: Response)
    ensures (forall ctx :: !Proves(req, verify, t, ctx)) ==> resp == Unauthorized
    ensures forall ctx :: Proves(req, verify, t, ctx) ==> resp == HandleFunc(true, Some(ctx), handler(ctx))
  {
    match AuthWithJWT(req, verify, t)
    case Deny(_) => Unauthorized
    case Allow(ctx) => HandleFunc(true, Some(ctx), handler(ctx))
  }

  /** A refused request is answered 401 and its answer does not depend on the handler: the handler never runs. */
  lemma HandlerRunsOnlyWhenProved(req: Request, verify: string -> Verification, t: Table,
                                  h1: AuthContext -> HandlerRun, h2: AuthContext -> HandlerRun)
    requires forall ctx :: !Proves(req, verify, t, ctx)
    ensures Serve(req, verify, t, h1) == Unauthorized
    ensures Serve(req, verify, t, h1) == Serve(req, verify, t, h2)
  {
  }

  /**
   * Behind the middleware the wrapper's own identity check always passes: an admitted request
   * reaches its handler, and the wrapper answers 400 only for an error the handler returned.
   */
  lemma AdmittedRequestReachesHandler(req: Request, verify: string -> Verification, t: Table,
                                      handler: AuthContext -> HandlerRun, ctx: AuthContext)
    requires Proves(req, verify, t, ctx)
    ensures handler(ctx).Wrote? ==> Serve(req, verify, t, handler) == handler(ctx).response
    ensures handler(ctx).Failed? ==> Serve(req, verify, t, handler) == Response(StatusBadRequest, HandlerError(handler(ctx).error), None)
  {
  }

  /** When a `token` cookie is present the `Authorization` header is ignored, even if the cookie is empty. */
  lemma CookieOverridesHeader(req: Request, header: string, verify: string -> Verification, t: Table)
    requires req.tokenCookie.Some?
    ensures AuthWithJWT(req, verify, t) == AuthWithJWT(Request(header, req.tokenCookie), verify, t)
    ensures req.tokenCookie == Some("") ==> AuthWithJWT(req, verify, t) == Deny(TokenNotFound)
  {
  }

  /** A token for an account whose email has changed since it was issued is refused. */
  lemma StaleEmailRefused(req: Request, verify: string -> Verification, t: Table, x: real, email: string)
    requires TokenString(req) != ""
    requires verify(TokenString(req)).Verified? && verify(TokenString(req)).claims.MapClaims?
    requires var m := verify(TokenString(req)).claims.entries; "id" in m && m["id"] == Number(x) && "email" in m && m["email"] == Text(email)
    requires TruncToInt(x) in t && t[TruncToInt(x)].email != email
    ensures AuthWithJWT(req, verify, t) == Deny(EmailMismatch)
  {
  }
}
