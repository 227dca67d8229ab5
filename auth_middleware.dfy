/** `authenticateUser` of middleware/authMiddleware.js: a request already
    authenticated by the session proceeds; otherwise the bearer token is
    the second space-separated field of the Authorization header, and
    `jwt.verify` decides between 403 and proceeding with `req.user` set to
    the decoded payload. `verify(token)` is the verification oracle: `None`
    when `jwt.verify` throws. */
module AuthMiddleware {
  import opened Common

  /** The outcome: either `next()` is called once, with `req.user` set
      (`Some`) or left as it was (`None`), or a JSON error reply is sent. */
  datatype Decision<P> =
    | Proceed(user: Option<P>)
    | Deny(status: int, message: string)

  /** `authHeader && authHeader.split(' ')[1]`, with `None` for a falsy
      result (header absent or empty, no second field, empty second
      field). */
  function BearerToken(header: Option<string>): (token: Option<string>)
    ensures token.Some? ==> header.Some? && token.value != "" && ' ' !in token.value
    ensures token.Some? ==> |Split(header.value, ' ')| >= 2 && Split(header.value, ' ')[1] == token.value
    // no token exactly when the header is absent or its second field is missing or empty
    ensures token.None? <==>
              header.None? || |Split(header.value, ' ')| < 2 || Split(header.value, ' ')[1] == ""
  {
    match header
    case None => None
    case Some(h) =>
      if h == "" then None
      else
        var fields := Split(h, ' ');
        if |fields| < 2 || fields[1] == "" then None else Some(fields[1])
  }

  function Authenticate<P>(sessionAuthenticated: bool, header: Option<string>,
                           verify: string -> Option<P>): (d: Decision<P>)
    // the session short-circuits: the header is not looked at
    ensures sessionAuthenticated ==> d == Proceed(None)
    ensures !sessionAuthenticated && BearerToken(header).None? ==>
              d == Deny(401, "Access denied. No token provided.")
    ensures !sessionAuthenticated && BearerToken(header).Some? ==>
              match verify(BearerToken(header).value)
              case None => d == Deny(403, "Invalid token.")
              case Some(payload) => d == Proceed(Some(payload))
  {
    if sessionAuthenticated then Proceed(None)
    else
      match BearerToken(header)
      case None => Deny(401, "Access denied. No token provided.")
      case Some(token) =>
        match verify(token)
        case None => Deny(403, "Invalid token.")
        case Some(decoded) => Proceed(Some(decoded))
  }

  /** `Bearer <token>` yields exactly the token, when it is non-empty and
      free of spaces. */
  lemma {:induction false} BearerTokenOfWellFormedHeader(scheme: string, token: string)
    requires ' ' !in scheme && ' ' !in token && token != ""
    ensures BearerToken(Some(scheme + " " + token)) == Some(token)
  {
    SplitJoin([scheme, token], ' ');
    assert Join([scheme, token], ' ') == scheme + " " + token by {
      assert Join([token], ' ') == token;
    }
  }

  /** A header with no space, such as `"Bearer"` alone, carries no token. */
  lemma NoSpaceNoToken(h: string)
    requires ' ' !in h
    ensures BearerToken(Some(h)).None?
  {
  }

  /** A request whose session is authenticated proceeds whatever its
      header and whatever the verifier would say. */
  lemma SessionIgnoresHeader<P>(h1: Option<string>, h2: Option<string>,
                                v1: string -> Option<P>, v2: string -> Option<P>)
    ensures Authenticate(true, h1, v1) == Authenticate(true, h2, v2)
  {
  }
}
