/** The `AuthUser` extractor (src/middleware/auth.rs): the principal of a request is
    the subject of the bearer token in its `Authorization` header. Token verification
    (signature and expiry) is a parameter. */
module AuthMiddleware {
  import opened Common

  /** What a valid token carries; `sub` is the user id. */
  datatype Claims = Claims(sub: string, exp: int, iat: int)

  datatype AuthUser = AuthUser(userId: string)

  const BearerPrefix := "Bearer "

  const MissingHeader := "Missing Authorization header"
  const BadFormat := "Invalid Authorization header format. Expected: Bearer <token>"
  const BadToken := "Invalid or expired token"

  /** `HeaderValue::to_str` accepts a value only when every byte is visible ASCII or a tab. */
  predicate VisibleAscii(s: string) {
    forall i :: 0 <= i < |s| ==> s[i] == '\t' || (' ' <= s[i] <= '~')
  }

  /** The header read as text: absent, or present but not visible ASCII, gives nothing. */
  function HeaderText(header: Option<string>): (r: Option<string>)
    ensures r.Some? <==> header.Some? && VisibleAscii(header.value)
    ensures r.Some? ==> r.value == header.value
  {
    if header.Some? && VisibleAscii(header.value) then header else None
  }

  /** The token handed to the verifier: the text after the 7-character prefix. */
  function TokenOf(h: string): (t: string)
    requires |h| >= |BearerPrefix| && h[..|BearerPrefix|] == BearerPrefix
    ensures BearerPrefix + t == h
  {
    h[|BearerPrefix|..]
  }

  /** `from_request_parts`: the checks in order, each failure a 401 with its own message. */
  function Authenticate(header: Option<string>, verify: string -> Option<Claims>): (r: Reply<AuthUser>)
    ensures r.Err? ==> r.status == Unauthorized
    ensures HeaderText(header).None? ==> r == Err(Unauthorized, MissingHeader)
    ensures r.Ok? ==> header.Some? && VisibleAscii(header.value) &&
                      |header.value| >= 7 && header.value[..7] == BearerPrefix &&
                      verify(header.value[7..]).Some? && r.body.userId == verify(header.value[7..]).value.sub
  {
    match HeaderText(header)
    case None => Err(Unauthorized, MissingHeader)
    case Some(h) =>
      if !(|h| >= |BearerPrefix| && h[..|BearerPrefix|] == BearerPrefix) then Err(Unauthorized, BadFormat)
      else
        match verify(TokenOf(h))
        case None => Err(Unauthorized, BadToken)
        case Some(claims) => Ok(AuthUser(claims.sub))
  }

  /** Sending "Bearer " followed by a visible token reaches the verifier with exactly that
      token, and the principal is the token's subject; any verifier failure is one 401. */
  lemma BearerRoundTrip(token: string, verify: string -> Option<Claims>)
    requires VisibleAscii(token)
    ensures Authenticate(Some(BearerPrefix + token), verify) ==
            (if verify(token).Some? then Ok(AuthUser(verify(token).value.sub)) else Err(Unauthorized, BadToken))
  {
    var h := BearerPrefix + token;
    assert VisibleAscii(h) by {
      forall i | 0 <= i < |h|
        ensures h[i] == '\t' || (' ' <= h[i] <= '~')
      {
        if i >= |BearerPrefix| {
          assert h[i] == token[i - |BearerPrefix|];
        }
      }
    }
    assert h[..|BearerPrefix|] == BearerPrefix;
    assert TokenOf(h) == token;
  }

  /** The prefix alone passes the format check and hands the verifier the empty token. */
  lemma PrefixAloneVerifiesEmptyToken(verify: string -> Option<Claims>)
    ensures Authenticate(Some(BearerPrefix), verify) ==
            (if verify("").Some? then Ok(AuthUser(verify("").value.sub)) else Err(Unauthorized, BadToken))
  {
    BearerRoundTrip("", verify);
    assert BearerPrefix + "" == BearerPrefix;
  }

  /** The prefix is case-sensitive: a visible header that does not begin with exactly
      "Bearer " is refused with the format message and the verifier is never consulted. */
  lemma WrongSchemeRefused(h: string, verify: string -> Option<Claims>)
    requires VisibleAscii(h)
    requires |h| < 7 || h[..7] != BearerPrefix
    ensures Authenticate(Some(h), verify) == Err(Unauthorized, BadFormat)
  {
  }

  /** Whether a request is admitted, and as whom, depends on the verifier's answer for its
      token alone. */
  lemma OnlyTheTokenMatters(header: Option<string>, v1: string -> Option<Claims>, v2: string -> Option<Claims>)
    requires HeaderText(header).Some? && |header.value| >= 7 && header.value[..7] == BearerPrefix
    requires v1(header.value[7..]) == v2(header.value[7..])
    ensures Authenticate(header, v1) == Authenticate(header, v2)
  {
  }
}
