/**
 * JwtService: where the access token is taken from (an RFC 6750 section
 * 2.1 "Bearer" Authorization header, else an `access_token` cookie) and which
 * claims a token must carry to yield a principal. Signature and expiry
 * checking is a parameter `parse` that yields the claims of a token it
 * accepts and `None` where the JWT library throws a JwtException.
 */
module JwtTokens {
  import opened Wrappers
  import opened JavaStrings
  import opened Principals

  const ACCESS_TOKEN_COOKIE: string := "access_token"
  const EXPECTED_ISSUER: string := "course-hub-identity-service"
  const AUTH_HEADER: string := "Authorization"
  const BEARER_PREFIX: string := "Bearer "

  /** A cookie; its value may be null. */
  datatype Cookie = Cookie(name: string, value: Option<string>)

  /** The parts of an incoming request that are read: the Authorization
      header (null when absent) and the cookie array (null when there are none). */
  datatype HttpRequest = HttpRequest(authorization: Option<string>, cookies: Option<seq<Cookie>>)

  /** The claims read from a token: `iss`, `sub`, `user_id`, `email` and
      `role`, each null when missing. */
  datatype Claims = Claims(
    issuer: Option<string>,
    subject: Option<string>,
    userId: Option<string>,
    email: Option<string>,
    role: Option<string>)

  /** A cookie that carries a token: the right name and a non-empty value. */
  predicate IsTokenCookie(c: Cookie) {
    c.name == ACCESS_TOKEN_COOKIE && c.value.Some? && c.value.value != []
  }

  /** The position of the first cookie that carries a token. */
  function FirstTokenCookie(cookies: seq<Cookie>): (r: Option<nat>)
    ensures r.Some? ==> r.value < |cookies| && IsTokenCookie(cookies[r.value])
    ensures r.Some? ==> forall k :: 0 <= k < r.value ==> !IsTokenCookie(cookies[k])
    ensures r.None? ==> forall k :: 0 <= k < |cookies| ==> !IsTokenCookie(cookies[k])
  {
    if cookies == [] then None
    else if IsTokenCookie(cookies[0]) then Some(0)
    else match FirstTokenCookie(cookies[1..])
      case None => None
      case Some(i) => Some(i + 1)
  }

  /** The token `resolveToken` finds: the header minus its prefix when the
      header starts with "Bearer ", else the first token cookie's value. */
  function ResolvedToken(request: HttpRequest): Option<string> {
    if request.authorization.Some? && StartsWith(request.authorization.value, BEARER_PREFIX) then
      Some(request.authorization.value[|BEARER_PREFIX|..])
    else if request.cookies.None? then None
    else match FirstTokenCookie(request.cookies.value)
      case None => None
      case Some(i) => request.cookies.value[i].value
  }

  /** `resolveToken`: the header test, then a scan of the cookies that
      returns at the first usable one. */
  method ResolveToken(request: HttpRequest) returns (token: Option<string>)
    ensures token == ResolvedToken(request)
  {
    var header := request.authorization;
    if header.Some? && StartsWith(header.value, BEARER_PREFIX) {
      return Some(header.value[|BEARER_PREFIX|..]);
    }
    if request.cookies.Some? {
      var cookies := request.cookies.value;
      var i := 0;
      while i < |cookies|
        invariant 0 <= i <= |cookies|
        invariant forall k :: 0 <= k < i ==> !IsTokenCookie(cookies[k])
      {
        if cookies[i].name == ACCESS_TOKEN_COOKIE {
          var value := cookies[i].value;
          if value.Some? && value.value != [] {
            return value;
          }
        }
        i := i + 1;
      }
    }
    return None;
  }

  /** A Bearer header wins over any cookie, and the token is what follows
      the seven-character prefix. */
  lemma BearerHeaderWins(token: string, cookies: Option<seq<Cookie>>)
    ensures ResolvedToken(HttpRequest(Some(BEARER_PREFIX + token), cookies)) == Some(token)
  {
    var header := BEARER_PREFIX + token;
    assert header[..|BEARER_PREFIX|] == BEARER_PREFIX;
    assert header[|BEARER_PREFIX|..] == token;
  }

  /** A header without the exact prefix (another case, another scheme) is
      ignored as if it were absent. */
  lemma OtherHeaderIgnored(request: HttpRequest)
    requires request.authorization.Some? && !StartsWith(request.authorization.value, BEARER_PREFIX)
    ensures ResolvedToken(request) == ResolvedToken(request.(authorization := None))
  {
  }

  /** On the cookie path a matching cookie with an empty value is skipped
      and the scan goes on. */
  lemma EmptyTokenCookieSkipped(token: string)
    requires token != []
    ensures ResolvedToken(HttpRequest(None, Some([Cookie(ACCESS_TOKEN_COOKIE, Some([])), Cookie(ACCESS_TOKEN_COOKIE, Some(token))])))
         == Some(token)
  {
    var cookies := [Cookie(ACCESS_TOKEN_COOKIE, Some([])), Cookie(ACCESS_TOKEN_COOKIE, Some(token))];
    assert !IsTokenCookie(cookies[0]) && IsTokenCookie(cookies[1]);
  }

  /** The claims a principal needs: the expected issuer and a user id,
      subject, email and role. */
  predicate ClaimsComplete(c: Claims) {
    c.issuer == Some(EXPECTED_ISSUER) && c.userId.Some? && c.subject.Some? && c.email.Some? && c.role.Some?
  }

  /** `parseToken`: a token without text is refused by the library's
      argument check before any parsing, with an IllegalArgumentException the
      `catch` of JwtException lets through. Otherwise `Ok(None)` for a token
      the library rejects or whose claims are incomplete, the principal
      otherwise; an unknown role name is an error as well. */
  function ParseToken(parse: string -> Option<Claims>, token: string): (r: Result<Option<UserPrincipal>>)
    ensures !HasText(token) ==> r == Err(IllegalArgument)
    ensures r.Ok? && r.value.Some? <==>
      HasText(token) && parse(token).Some? && ClaimsComplete(parse(token).value) && ValueOf(parse(token).value.role.value).Some?
    ensures r.Err? <==>
      !HasText(token) || (parse(token).Some? && ClaimsComplete(parse(token).value) && ValueOf(parse(token).value.role.value).None?)
    ensures r.Err? ==> r.error == IllegalArgument
    ensures r.Ok? && r.value.Some? ==>
      var c := parse(token).value;
      r.value.value.id == c.userId.value && r.value.value.username == c.subject.value &&
      r.value.value.email == c.email.value && Authority(r.value.value.role) == c.role.value
  {
    if !HasText(token) then Err(IllegalArgument)
    else match parse(token)
      case None => Ok(None)
      case Some(c) =>
        if !ClaimsComplete(c) then Ok(None)
        else match NewPrincipal(c.userId.value, c.subject.value, c.email.value, c.role.value)
          case Err(e) => Err(e)
          case Ok(p) => Ok(Some(p))
  }

  /** A token from another issuer leaves the caller anonymous, unless it is
      blank and refused before its issuer is read. */
  lemma ForeignIssuerAnonymous(parse: string -> Option<Claims>, token: string)
    requires parse(token).Some? && parse(token).value.issuer != Some(EXPECTED_ISSUER)
    ensures ParseToken(parse, token) == if HasText(token) then Ok(None) else Err(IllegalArgument)
  {
  }

  /** A "Bearer " header with nothing after it resolves to the empty token,
      which escapes `verifyAccessToken` as an IllegalArgumentException
      whatever the cookies and the parser. */
  lemma EmptyBearerEscapes(parse: string -> Option<Claims>, cookies: Option<seq<Cookie>>)
    ensures ResolvedToken(HttpRequest(Some(BEARER_PREFIX), cookies)) == Some([])
    ensures ParseToken(parse, ResolvedToken(HttpRequest(Some(BEARER_PREFIX), cookies)).value) == Err(IllegalArgument)
  {
    BearerHeaderWins([], cookies);
    assert BEARER_PREFIX + [] == BEARER_PREFIX;
  }

  /** `verifyAccessToken`: the principal of the resolved token, or anonymous
      (`Ok(None)`) when there is no token. */
  method VerifyAccessToken(parse: string -> Option<Claims>, request: HttpRequest) returns (r: Result<Option<UserPrincipal>>)
    ensures ResolvedToken(request).None? ==> r == Ok(None)
    ensures ResolvedToken(request).Some? ==> r == ParseToken(parse, ResolvedToken(request).value)
  {
    var token := ResolveToken(request);
    if token.None? {
      return Ok(None);
    }
    r := ParseToken(parse, token.value);
  }
}
