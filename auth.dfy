/**
 * The admin gate: where a request's token comes from, the 401/403/pass
 * decision, and the username/password check that issues a token.
 *
 * Signing and verifying tokens belong to a JSON Web Token library that is not
 * part of this model: `sign` and `verify` are parameters, and the one fact the
 * gate relies on, that verifying a freshly signed token gives back its claims,
 * is stated as a precondition where it is used.
 */
module Auth {
  import opened Wrappers
  import opened Domain

  /** The payload of an admin token. */
  datatype Claims = Claims(username: string, role: string)

  /** The parts of an HTTP request the gate reads: the Authorization header and the `admin_token` cookie. */
  datatype Request = Request(authorization: Option<string>, adminCookie: Option<string>)

  /** The environment variables the gate reads; None where a variable is not set. */
  datatype Env = Env(adminUsername: Option<string>, adminPassword: Option<string>)

  const BearerPrefix: string := "Bearer "

  function AdminUsername(env: Env): string
  {
    OrElse(env.adminUsername, "admin")
  }

  function AdminPassword(env: Env): string
  {
    OrElse(env.adminPassword, "admin123")
  }

  /** With neither variable set, the configured pair is admin / admin123. */
  lemma DefaultCredentials()
    ensures AdminUsername(Env(None, None)) == "admin" && AdminPassword(Env(None, None)) == "admin123"
  {
  }

  /**
   * `getTokenFromRequest`: a header that starts with "Bearer " gives the text
   * after those seven characters; otherwise a non-empty cookie; otherwise none.
   */
  function TokenFromRequest(req: Request): (t: Option<string>)
    ensures t.Some? ==> (req.authorization.Some? && req.authorization.value == BearerPrefix + t.value) || t == req.adminCookie
    ensures req.authorization.None? && !Truthy(req.adminCookie) ==> t.None?
  {
    if req.authorization.Some? && BearerPrefix <= req.authorization.value
    then
      var header := req.authorization.value;
      assert header == BearerPrefix + header[|BearerPrefix|..];
      Some(header[|BearerPrefix|..])
    else if Truthy(req.adminCookie) then req.adminCookie
    else None
  }

  /** A bearer header wins over any cookie and yields exactly the token that followed the prefix. */
  lemma BearerTokenWins(token: string, cookie: Option<string>)
    ensures TokenFromRequest(Request(Some(BearerPrefix + token), cookie)) == Some(token)
  {
    assert BearerPrefix <= BearerPrefix + token;
    assert (BearerPrefix + token)[|BearerPrefix|..] == token;
  }

  /** Without a bearer header the token is the cookie when it is non-empty, and there is none otherwise. */
  lemma CookieFallback(req: Request)
    requires req.authorization.None? || !(BearerPrefix <= req.authorization.value)
    ensures TokenFromRequest(req) == (if Truthy(req.adminCookie) then req.adminCookie else None)
  {
  }

  /**
   * `requireAdmin`: None lets the caller through; a missing or empty token is
   * 401; a token that does not verify, or whose role is not "admin", is 403.
   */
  function RequireAdmin(req: Request, verify: string -> Option<Claims>): (r: Option<ApiError>)
    ensures r == None || r == Some(Unauthorized) || r == Some(Forbidden)
    ensures r == Some(Unauthorized) <==> !Truthy(TokenFromRequest(req))
    ensures r == Some(Forbidden) <==>
      (var t := TokenFromRequest(req); Truthy(t) && (verify(t.value).None? || verify(t.value).value.role != "admin"))
  {
    var token := TokenFromRequest(req);
    if !Truthy(token) then Some(Unauthorized)
    else
      var decoded := verify(token.value);
      if decoded.None? || decoded.value.role != "admin" then Some(Forbidden)
      else None
  }

  /** The gate passes exactly when the request carries a non-empty token that verifies to admin claims. */
  lemma RequireAdminPasses(req: Request, verify: string -> Option<Claims>)
    ensures RequireAdmin(req, verify) == None
      <==> (var t := TokenFromRequest(req); Truthy(t) && verify(t.value).Some? && verify(t.value).value.role == "admin")
  {
  }

  /**
   * `authenticateAdmin`: a token signed over the submitted username and the
   * admin role when both credentials equal the configured pair, otherwise none.
   */
  function AuthenticateAdmin(env: Env, username: string, password: string, sign: Claims -> string): (token: Option<string>)
    ensures token.Some? <==> username == AdminUsername(env) && password == AdminPassword(env)
    ensures token.Some? ==> token.value == sign(Claims(username, "admin"))
  {
    if username != AdminUsername(env) then None
    else if password != AdminPassword(env) then None
    else Some(sign(Claims(username, "admin")))
  }

  /**
   * A token issued by the login check, sent back as a bearer header, passes
   * the gate whatever cookie comes with it, provided the token library
   * verifies what it signs.
   */
  lemma IssuedTokenPasses(env: Env, username: string, password: string, sign: Claims -> string,
                          verify: string -> Option<Claims>, cookie: Option<string>)
    requires forall c: Claims :: verify(sign(c)) == Some(c)
    requires forall c: Claims :: sign(c) != ""
    requires username == AdminUsername(env) && password == AdminPassword(env)
    ensures var token := AuthenticateAdmin(env, username, password, sign);
      token.Some? && RequireAdmin(Request(Some(BearerPrefix + token.value), cookie), verify) == None
  {
    var token := AuthenticateAdmin(env, username, password, sign).value;
    BearerTokenWins(token, cookie);
    assert verify(token) == Some(Claims(username, "admin"));
  }
}
