/**
 * The login handler: look the account up by email, compare the password with the stored hash,
 * sign a token and set it as a cookie. The hash comparison, the signing and the store's lookup
 * by email are parameters.
 */
module Login {
  import opened Wrappers
  import opened Types
  import opened Http

  /** The JSON body of `POST /login`. */
  datatype LoginRequest = LoginRequest(email: string, password: string)

  /** The answer to a wrong email and to a wrong password alike. */
  const InvalidCredentials: Response := Response(StatusUnauthorized, ApiError("Invalid credentials"), None)

  /** The cookie that carries a signed token: HTTP-only, same-site strict, valid for 24 hours. */
  function TokenCookie(token: string): Cookie
  {
    Cookie("token", token, true, false, true, 86400)
  }

  /**
   * The login handler. `body` is the decoded request (None when it is not valid JSON), `byEmail` the
   * store's lookup by email, `passwordMatches(hash, password)` the slow-hash comparison and `sign`
   * the token signing, which may fail.
   */
  function HandleLogin(body: Option<LoginRequest>, byEmail: string -> Result<Account, Error>,
                       passwordMatches: (string, string) -> bool, sign: Account -> Option<string>): (run: HandlerRun)
    ensures body.None? ==> run == Failed(MalformedBody)
    ensures run.Wrote? && run.response.status == StatusOK <==>
      && body.Some?
      && byEmail(body.value.email).Success?
      && passwordMatches(byEmail(body.value.email).value.encryptedPassword, body.value.password)
      && sign(byEmail(body.value.email).value).Some?
    ensures run.Wrote? && run.response.status == StatusOK ==>
      run.response.cookie == Some(TokenCookie(sign(byEmail(body.value.email).value).value))
    ensures run.Wrote? && run.response.status == StatusOK ==> run.response.body == LoginMessage("Login successful")
    ensures run.Wrote? && run.response.status != StatusOK ==> run.response == InvalidCredentials
    ensures body.Some? && byEmail(body.value.email).Failure? ==> run == Wrote(InvalidCredentials)
    ensures body.Some? && byEmail(body.value.email).Success?
            && !passwordMatches(byEmail(body.value.email).value.encryptedPassword, body.value.password)
            ==> run == Wrote(InvalidCredentials)
    ensures body.Some? && byEmail(body.value.email).Success?
            && passwordMatches(byEmail(body.value.email).value.encryptedPassword, body.value.password)
            && sign(byEmail(body.value.email).value).None?
            ==> run == Failed(SigningFailed)
  {
    match body
    case None => Failed(MalformedBody)
    case Some(req) =>
      match byEmail(req.email)
      case Failure(_) => Wrote(InvalidCredentials)
      case Success(acc) =>
        if !passwordMatches(acc.encryptedPassword, req.password) then Wrote(InvalidCredentials)
        else match sign(acc)
          case None => Failed(SigningFailed)
          case Some(token) =>
            Wrote(Response(StatusOK, LoginMessage("Login successful"), Some(TokenCookie(token))))
  }

  /**
   * An unknown email and a known email with a wrong password get the very same answer, so the
   * response does not reveal which accounts exist.
   */
  lemma UniformRejection(req1: LoginRequest, byEmail1: string -> Result<Account, Error>,
                         req2: LoginRequest, byEmail2: string -> Result<Account, Error>,
                         passwordMatches: (string, string) -> bool, sign: Account -> Option<string>)
    requires byEmail1(req1.email).Failure?
    requires byEmail2(req2.email).Success?
    requires !passwordMatches(byEmail2(req2.email).value.encryptedPassword, req2.password)
    ensures HandleLogin(Some(req1), byEmail1, passwordMatches, sign) == Wrote(InvalidCredentials)
    ensures HandleFunc(false, None, HandleLogin(Some(req1), byEmail1, passwordMatches, sign))
         == HandleFunc(false, None, HandleLogin(Some(req2), byEmail2, passwordMatches, sign))
  {
  }
}
