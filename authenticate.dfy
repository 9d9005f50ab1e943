/** The `authenticate` middleware: pick the token from an
    `Authorization: Bearer` header (section 2.1 of RFC 6750), else from
    the `token` cookie, and verify it. Token verification (a signed JWT)
    is a partial function supplied by the caller. */
module Authenticate {
  import opened Wrappers
  import opened Types
  import Text

  const BEARER_PREFIX := "Bearer "

  /** The token the middleware hands to verification, if any. */
  function SelectToken(authorization: Option<string>, cookieToken: Option<string>): (t: Option<string>)
    ensures authorization.Some? && Text.StartsWith(authorization.value, BEARER_PREFIX) ==>
              t.Some? && authorization.value == BEARER_PREFIX + t.value
    ensures !(authorization.Some? && Text.StartsWith(authorization.value, BEARER_PREFIX)) ==>
              t == cookieToken
  {
    if authorization.Some? && Text.StartsWith(authorization.value, BEARER_PREFIX)
    then Some(authorization.value[|BEARER_PREFIX|..])
    else cookieToken
  }

  datatype AuthFailure = MissingCredentials | InvalidCredentials

  /** `Authenticated(user)` is `req.user = payload; next()`. */
  datatype AuthOutcome = Authenticated(user: AuthTokenPayload) | Refused(failure: AuthFailure) {
    function Status(): int { if Authenticated? then OK else UNAUTHORIZED }

    /** `req.user` as later handlers see it. */
    function Caller(): Option<AuthTokenPayload> {
      if Authenticated? then Some(user) else None
    }
  }

  function Authenticate(authorization: Option<string>, cookieToken: Option<string>,
                        verify: string -> Option<AuthTokenPayload>): (out: AuthOutcome)
    ensures var t := SelectToken(authorization, cookieToken);
            out.Authenticated? <==> t.Some? && t.value != "" && verify(t.value).Some?
    ensures out.Authenticated? ==> verify(SelectToken(authorization, cookieToken).value) == Some(out.user)
    ensures out == Refused(MissingCredentials) <==>
              SelectToken(authorization, cookieToken).None? || SelectToken(authorization, cookieToken).value == ""
    ensures out.Refused? <==> out.Status() == UNAUTHORIZED
  {
    var token := SelectToken(authorization, cookieToken);
    if token.None? || token.value == "" then Refused(MissingCredentials)
    else
      match verify(token.value)
      case None => Refused(InvalidCredentials)
      case Some(payload) => Authenticated(payload)
  }

  /** A bearer header carries exactly the token written after the scheme,
      whatever the cookie holds. */
  lemma BearerRoundTrip(token: string, cookieToken: Option<string>)
    ensures SelectToken(Some(BEARER_PREFIX + token), cookieToken) == Some(token)
  {
    assert (BEARER_PREFIX + token)[..|BEARER_PREFIX|] == BEARER_PREFIX;
    assert (BEARER_PREFIX + token)[|BEARER_PREFIX|..] == token;
  }

  /** An absent or empty token is refused before verification is consulted:
      the outcome is the same for every verifier. */
  lemma NoTokenNoVerify(authorization: Option<string>, cookieToken: Option<string>,
                        v1: string -> Option<AuthTokenPayload>, v2: string -> Option<AuthTokenPayload>)
    requires var t := SelectToken(authorization, cookieToken); t.None? || t.value == ""
    ensures Authenticate(authorization, cookieToken, v1) == Refused(MissingCredentials)
    ensures Authenticate(authorization, cookieToken, v1) == Authenticate(authorization, cookieToken, v2)
  {
  }

  /** A bare `Bearer ` header is an empty token, so 401 even with a cookie. */
  lemma BareBearerRefused(cookieToken: Option<string>, verify: string -> Option<AuthTokenPayload>)
    ensures Authenticate(Some(BEARER_PREFIX), cookieToken, verify) == Refused(MissingCredentials)
  {
    BearerRoundTrip("", cookieToken);
    assert BEARER_PREFIX + "" == BEARER_PREFIX;
  }

  /** A non-empty token succeeds exactly when verification does, and then
      the verified payload becomes the caller. */
  lemma VerifiedTokenAuthenticates(authorization: Option<string>, cookieToken: Option<string>,
                                   verify: string -> Option<AuthTokenPayload>)
    requires var t := SelectToken(authorization, cookieToken); t.Some? && t.value != ""
    ensures var t := SelectToken(authorization, cookieToken).value;
            Authenticate(authorization, cookieToken, verify) ==
              if verify(t).Some? then Authenticated(verify(t).value) else Refused(InvalidCredentials)
  {
  }
}
