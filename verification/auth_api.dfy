/** data/auth.ts: logging in and validating a stored token. */
module AuthApi {
  import opened Wrappers
  import opened Http

  const LoginFailed := "Login failed"

  /** The `loginAdmin` request: a JSON POST carrying the credentials and no
      token. */
  function LoginRequest(email: string, password: string): (r: Request)
    ensures r.verb == Post && r.path == "/admin/login-admin" && r.query == [] && !r.noStore
    ensures r.headers == [ContentTypeJson, AcceptJson]
    ensures r.body == Some([("email", email), ("password", password)])
    ensures Lookup(r.headers, "Authorization") == None
  {
    Request(Post, "/admin/login-admin", [], [ContentTypeJson, AcceptJson],
      Some([("email", email), ("password", password)]), false)
  }

  /** `loginAdmin(email, password)`: always sent; the parsed `{message, token}`
      on success (the payload is the token); the server's message, else
      "Login failed", on a non-OK reply. */
  function LoginAdmin(email: string, password: string, reply: Reply<string>): (c: Call<Envelope<string>>)
    ensures c.sent == Some(LoginRequest(email, password))
    ensures c.outcome.Err? ==> c.outcome.message.Some?
    ensures c.outcome.Ok? <==> reply.Answered? && IsOk(reply.status) && reply.body.Json?
    ensures c.outcome.Ok? ==> c.outcome.value == reply.body.envelope
    ensures reply.Answered? && !IsOk(reply.status) ==>
      c.outcome == Err(Some(FailureText(reply.body, LoginFailed)))
  {
    Call(Some(LoginRequest(email, password)), Settle(reply, LoginFailed))
  }

  /** The `validateToken` request. */
  function ValidateRequest(token: string): (r: Request)
    ensures r.verb == Post && r.path == "/admin/validate-token" && r.query == [] && r.body == None && r.noStore
    ensures r.headers == [AcceptJson, Authorization(token)]
  {
    Request(Post, "/admin/validate-token", [], [AcceptJson, Authorization(token)], None, true)
  }

  /** `validateToken(token)`: never rejects; true exactly for status 200, so
      a transport failure and every other status, 2xx included, mean
      "invalid". */
  function ValidateToken(reply: Reply<()>): (valid: bool)
    ensures valid <==> reply.Answered? && reply.status == 200
    ensures reply.Answered? && IsOk(reply.status) && reply.status != 200 ==> !valid
  {
    match reply
    case Rejected(_) => false
    case Answered(status, _) => status == 200
  }
}
