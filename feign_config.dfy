/**
 * The Feign request interceptor that forwards the caller's credential to
 * the identity service. Unlike the verifier it forwards any Authorization
 * header as it is, and turns a cookie token into a Bearer header.
 */
module FeignForwarding {
  import opened Wrappers
  import opened JavaStrings
  import opened JwtTokens

  /** The outgoing request template; its headers in the order added. */
  class RequestTemplate {
    var headers: seq<(string, string)>

    constructor()
      ensures headers == []
    {
      headers := [];
    }

    /** `template.header(name, value)`. */
    method Header(name: string, value: string)
      modifies this
      ensures headers == old(headers) + [(name, value)]
    {
      headers := headers + [(name, value)];
    }
  }

  /** The Authorization value the interceptor adds for an incoming request:
      the header verbatim when present, else "Bearer " and the first token
      cookie's value, else nothing. */
  function ForwardedAuthorization(request: HttpRequest): Option<string> {
    if request.authorization.Some? then request.authorization
    else if request.cookies.None? then None
    else match FirstTokenCookie(request.cookies.value)
      case None => None
      case Some(i) => Some(BEARER_PREFIX + request.cookies.value[i].value.value)
  }

  /** The headers the interceptor appends: at most one. */
  function Added(request: HttpRequest): (r: seq<(string, string)>)
    ensures |r| <= 1
    ensures r != [] <==> ForwardedAuthorization(request).Some?
    ensures r != [] ==> r[0] == (AUTH_HEADER, ForwardedAuthorization(request).value)
  {
    match ForwardedAuthorization(request)
    case None => []
    case Some(v) => [(AUTH_HEADER, v)]
  }

  /** The interceptor. `attributes` is the current request, `None` outside a
      request; the cookie scan stops at the first usable cookie. */
  method RequestInterceptor(attributes: Option<HttpRequest>, template: RequestTemplate)
    modifies template
    ensures attributes.None? ==> template.headers == old(template.headers)
    ensures attributes.Some? ==> template.headers == old(template.headers) + Added(attributes.value)
  {
    if attributes.Some? {
      var request := attributes.value;
      var token := request.authorization;
      if token.Some? {
        template.Header(AUTH_HEADER, token.value);
      } else if request.cookies.Some? {
        var cookies := request.cookies.value;
        var i := 0;
        while i < |cookies|
          invariant 0 <= i <= |cookies|
          invariant forall k :: 0 <= k < i ==> !IsTokenCookie(cookies[k])
          invariant template.headers == old(template.headers)
        {
          if ACCESS_TOKEN_COOKIE == cookies[i].name {
            var value := cookies[i].value;
            if value.Some? && value.value != [] {
              template.Header(AUTH_HEADER, BEARER_PREFIX + value.value);
              break;
            }
          }
          i := i + 1;
        }
      }
    }
  }

  /** For a Bearer header both sides agree: the same header goes out as
      the verifier reads the token from. */
  lemma BearerForwardedAsRead(request: HttpRequest)
    requires request.authorization.Some? && StartsWith(request.authorization.value, BEARER_PREFIX)
    ensures ForwardedAuthorization(request) == Some(BEARER_PREFIX + ResolvedToken(request).value)
  {
    var header := request.authorization.value;
    assert header == header[..|BEARER_PREFIX|] + header[|BEARER_PREFIX|..];
  }

  /** A header without the Bearer prefix is forwarded although the verifier
      ignores it and reads the cookies instead. */
  lemma OtherHeaderForwarded(request: HttpRequest)
    requires request.authorization.Some? && !StartsWith(request.authorization.value, BEARER_PREFIX)
    ensures ForwardedAuthorization(request) == request.authorization
    ensures ResolvedToken(request) == ResolvedToken(request.(authorization := None))
  {
  }

  /** Without a header both pick the same cookie, and the interceptor sends
      it as a Bearer credential. */
  lemma CookieForwardedAsBearer(request: HttpRequest)
    requires request.authorization.None?
    ensures ForwardedAuthorization(request) ==
      match ResolvedToken(request)
      case None => None
      case Some(t) => Some(BEARER_PREFIX + t)
  {
  }

  /** A forwarded cookie credential is read back by the verifier as the
      cookie's value. */
  lemma ForwardedCookieRoundTrip(request: HttpRequest, cookies: Option<seq<Cookie>>)
    requires request.authorization.None? && ForwardedAuthorization(request).Some?
    ensures ResolvedToken(HttpRequest(ForwardedAuthorization(request), cookies)) == ResolvedToken(request)
  {
    var t := ResolvedToken(request).value;
    BearerHeaderWins(t, cookies);
  }
}
