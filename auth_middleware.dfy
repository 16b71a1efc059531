/**
 * `authMiddleware` of `backend/middleware/auth.js`: the `Authorization` header
 * checks that run before the token is verified, and the mapping of verification
 * errors to responses. `jwt.verify` with the server secret is a parameter.
 */
module AuthMiddleware {
  import opened Wrappers
  import opened JsText

  /** The payload fields the middleware reads from a verified token. */
  datatype Claims = Claims(userId: Option<nat>, email: Option<string>)

  /** A verification error: its `name` and `message`. */
  datatype JwtError = JwtError(name: string, message: string)

  /** What the middleware stores on the request: `req.userId` and `req.userEmail`. */
  datatype Principal = Principal(userId: Option<nat>, email: Option<string>)

  datatype AuthFailure = AuthFailure(status: int, error: string)

  const BEARER: string := "Bearer "
  const NO_TOKEN := AuthFailure(401, "No token provided")
  const BAD_FORMAT := AuthFailure(401, "Invalid authorization format. Must be: Bearer <token>")
  const EMPTY_TOKEN := AuthFailure(401, "Empty token")

  /** The `catch` block: an expired token, a malformed one, and anything else, all answered 401. */
  function VerifyFailure(e: JwtError): (f: AuthFailure)
    ensures f.status == 401
    ensures e.name == "TokenExpiredError" ==> f.error == "Token expired"
    ensures e.name == "JsonWebTokenError" ==> f.error == "Invalid token: " + e.message
    ensures e.name != "TokenExpiredError" && e.name != "JsonWebTokenError" ==>
              f.error == "Authentication failed: " + e.message
  {
    if e.name == "TokenExpiredError" then AuthFailure(401, "Token expired")
    else if e.name == "JsonWebTokenError" then AuthFailure(401, "Invalid token: " + e.message)
    else AuthFailure(401, "Authentication failed: " + e.message)
  }

  /**
   * The middleware on a request whose `Authorization` header is `header`: a missing or
   * empty header, a header without the exact `Bearer ` prefix, and a blank token are
   * refused before `verify` is consulted; otherwise the token after the prefix is verified.
   */
  function Authenticate(header: Option<string>, verify: string -> Result<Claims, JwtError>): (r: Result<Principal, AuthFailure>)
    ensures r.Err? ==> r.error.status == 401
    ensures header.None? || header == Some("") ==> r == Err(NO_TOKEN)
    ensures header.Some? && header.value != "" && !StartsWith(header.value, BEARER) ==> r == Err(BAD_FORMAT)
    ensures header.Some? && StartsWith(header.value, BEARER) ==>
      var token := header.value[|BEARER|..];
      && (AllSpace(token) ==> r == Err(EMPTY_TOKEN))
      && (!AllSpace(token) ==>
            r == match verify(token)
                 case Ok(c) => Ok(Principal(c.userId, c.email))
                 case Err(e) => Err(VerifyFailure(e)))
  {
    if header.None? || header.value == "" then Err(NO_TOKEN)
    else if !StartsWith(header.value, BEARER) then Err(BAD_FORMAT)
    else
      var token := Substring(header.value, 7, |header.value|);
      assert token == header.value[|BEARER|..];
      TrimEmptyIffAllSpace(token);
      if token == "" || Trim(token) == "" then Err(EMPTY_TOKEN)
      else
        match verify(token)
        case Ok(decoded) => Ok(Principal(decoded.userId, decoded.email))
        case Err(e) => Err(VerifyFailure(e))
  }

  /** A refused header is refused whatever the verifier would say: verification is not attempted. */
  lemma BlankTokenNotVerified(header: Option<string>, v1: string -> Result<Claims, JwtError>, v2: string -> Result<Claims, JwtError>)
    requires header.None? || !StartsWith(header.value, BEARER) || AllSpace(header.value[|BEARER|..])
    ensures Authenticate(header, v1) == Authenticate(header, v2)
    ensures Authenticate(header, v1).Err?
  {
  }

  /** A request authenticates exactly when its header is `Bearer ` followed by a token the verifier accepts. */
  lemma AuthenticatedIff(header: Option<string>, verify: string -> Result<Claims, JwtError>)
    ensures Authenticate(header, verify).Ok? <==>
      exists token :: header == Some(BEARER + token) && !AllSpace(token) && verify(token).Ok?
  {
    if Authenticate(header, verify).Ok? {
      var token := header.value[|BEARER|..];
      assert header.value == BEARER + token;
    }
    if exists token :: header == Some(BEARER + token) && !AllSpace(token) && verify(token).Ok? {
      var token :| header == Some(BEARER + token) && !AllSpace(token) && verify(token).Ok?;
      assert (BEARER + token)[|BEARER|..] == token;
      assert (BEARER + token)[..|BEARER|] == BEARER;
    }
  }
}
