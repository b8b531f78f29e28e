/** Cookie-based JWT sessions with double-submit CSRF protection
    (api/v1/auth_core.py).

    Tokens are JSON Web Tokens (RFC 7519) signed with HMAC SHA-256 ("HS256",
    section 3.2 of RFC 7518). The signing library is treated as an abstract
    `Codec`: `encode` signs a claim set, `decode` checks the signature and the
    format and returns the claim set, or `None` where the library raises. The
    expiry check of the library ("exp", section 4.1.4 of RFC 7519) is written
    out here, so that expiry is part of the model. What is modelled is the
    decision layer above the codec: token types, the mapping of every failure
    to an HTTP status, mandatory and optional subject extraction, the CSRF
    comparison, and the cookies each operation sets or deletes. */
module AuthCore {
  import opened Http

  // ---------------------------------------------------------------------------
  // Configuration
  // ---------------------------------------------------------------------------

  const JWT_ALGORITHM: string := "HS256"

  const ACCESS_TOKEN_EXPIRE_MINUTES: int := 15
  const REFRESH_TOKEN_EXPIRE_DAYS: int := 7

  /** Token lifetimes in seconds. */
  const ACCESS_TTL: int := ACCESS_TOKEN_EXPIRE_MINUTES * 60
  const REFRESH_TTL: int := REFRESH_TOKEN_EXPIRE_DAYS * 24 * 60 * 60

  const ACCESS_COOKIE_NAME: string := "access_token"
  const REFRESH_COOKIE_NAME: string := "refresh_token"
  const CSRF_COOKIE_NAME: string := "csrf_token"

  const COOKIE_SECURE: bool := false
  const COOKIE_SAMESITE: string := "lax"

  /** The CSRF header `X-CSRF-Token`; header maps are keyed by lower-cased
      name, since HTTP header names are case-insensitive. */
  const CSRF_HEADER_NAME: string := "x-csrf-token"

  const ACCESS_TYPE: string := "access"
  const REFRESH_TYPE: string := "refresh"

  const NOT_AUTHENTICATED: Failure := HttpError(401, "Not authenticated")
  const INVALID_OR_EXPIRED: Failure := HttpError(401, "Invalid or expired token")
  const INVALID_TYPE: Failure := HttpError(401, "Invalid token type")
  const MISSING_REFRESH: Failure := HttpError(401, "Missing refresh token")
  const CSRF_MISSING: Failure := HttpError(403, "CSRF token missing")
  const CSRF_INVALID: Failure := HttpError(403, "Invalid CSRF token")

  // ---------------------------------------------------------------------------
  // Tokens
  // ---------------------------------------------------------------------------

  /** A token's claim set: "sub" (the user id), "type" ("access" or "refresh")
      and "exp" (seconds since the epoch). A claim set signed with the server's
      key may in principle lack any of them. */
  datatype Payload = Payload(sub: Option<string>, typ: Option<string>, exp: Option<int>)

  /** The HS256 signer and verifier with the server's secret key. */
  datatype Codec = Codec(encode: Payload -> string, decode: string -> Option<Payload>)

  /** What the signing library guarantees: a signed token is never empty (a
      compact JWS has three dot-separated parts), and verifying it gives back
      exactly the claims that were signed. */
  ghost predicate Sound(codec: Codec)
  {
    forall p :: codec.decode(codec.encode(p)) == Some(p) && codec.encode(p) != ""
  }

  /** The library rejects a token whose "exp" lies before `now`. */
  predicate Expired(p: Payload, now: int)
  {
    p.exp.Some? && p.exp.value < now
  }

  /** `jwt.decode`: the claims of a token whose signature and format check out
      and which has not expired; `None` where the library raises `JWTError`. */
  function JwtDecode(codec: Codec, token: string, now: int): (r: Option<Payload>)
    ensures r.Some? ==> codec.decode(token) == r && !Expired(r.value, now)
    ensures r.None? ==> codec.decode(token).None? || Expired(codec.decode(token).value, now)
  {
    match codec.decode(token)
    case None => None
    case Some(p) => if Expired(p, now) then None else Some(p)
  }

  /** `_create_token`: the claims of `data` with "exp" set to `now + ttl`,
      signed. */
  function CreateToken(codec: Codec, data: Payload, ttl: int, now: int): (token: string)
    ensures Sound(codec) ==> codec.decode(token) == Some(data.(exp := Some(now + ttl)))
    ensures Sound(codec) ==> token != ""
  {
    codec.encode(data.(exp := Some(now + ttl)))
  }

  /** `create_access_token`: fifteen minutes, type "access". */
  function CreateAccessToken(codec: Codec, userId: string, now: int): (token: string)
    ensures Sound(codec) ==> codec.decode(token) == Some(Payload(Some(userId), Some(ACCESS_TYPE), Some(now + 900)))
  {
    CreateToken(codec, Payload(Some(userId), Some(ACCESS_TYPE), None), ACCESS_TTL, now)
  }

  /** `create_refresh_token`: seven days, type "refresh". */
  function CreateRefreshToken(codec: Codec, userId: string, now: int): (token: string)
    ensures Sound(codec) ==> codec.decode(token) == Some(Payload(Some(userId), Some(REFRESH_TYPE), Some(now + 604800)))
  {
    CreateToken(codec, Payload(Some(userId), Some(REFRESH_TYPE), None), REFRESH_TTL, now)
  }

  /** `verify_token`: the claims of a valid, unexpired token of the expected
      type. Every failure is a 401: a decoding failure (bad signature,
      malformed, expired) reads "Invalid or expired token", a type mismatch
      "Invalid token type". */
  function VerifyToken(codec: Codec, token: string, tokenType: string, now: int): (r: Result<Payload>)
    ensures r.Ok? <==> JwtDecode(codec, token, now).Some? && JwtDecode(codec, token, now).value.typ == Some(tokenType)
    ensures r.Ok? ==> r.value.typ == Some(tokenType) && !Expired(r.value, now) && codec.decode(token) == Some(r.value)
    ensures JwtDecode(codec, token, now).None? ==> r == Err(INVALID_OR_EXPIRED)
    ensures JwtDecode(codec, token, now).Some? && JwtDecode(codec, token, now).value.typ != Some(tokenType)
        ==> r == Err(INVALID_TYPE)
    ensures r.Err? ==> r.error == INVALID_OR_EXPIRED || r.error == INVALID_TYPE
  {
    match JwtDecode(codec, token, now)
    case None => Err(INVALID_OR_EXPIRED)
    case Some(p) => if p.typ != Some(tokenType) then Err(INVALID_TYPE) else Ok(p)
  }

  /** Before it expires, an access token verifies as "access" with the user
      id it was issued for. */
  lemma AccessTokenRoundTrip(codec: Codec, userId: string, issued: int, now: int)
    requires Sound(codec)
    requires now <= issued + ACCESS_TTL
    ensures VerifyToken(codec, CreateAccessToken(codec, userId, issued), ACCESS_TYPE, now)
         == Ok(Payload(Some(userId), Some(ACCESS_TYPE), Some(issued + 900)))
  {
  }

  /** After fifteen minutes an access token no longer verifies. */
  lemma AccessTokenExpires(codec: Codec, userId: string, issued: int, now: int)
    requires Sound(codec)
    requires now > issued + ACCESS_TTL
    ensures VerifyToken(codec, CreateAccessToken(codec, userId, issued), ACCESS_TYPE, now) == Err(INVALID_OR_EXPIRED)
  {
  }

  /** Before it expires, a refresh token verifies as "refresh" with the user
      id it was issued for. */
  lemma RefreshTokenRoundTrip(codec: Codec, userId: string, issued: int, now: int)
    requires Sound(codec)
    requires now <= issued + REFRESH_TTL
    ensures VerifyToken(codec, CreateRefreshToken(codec, userId, issued), REFRESH_TYPE, now)
         == Ok(Payload(Some(userId), Some(REFRESH_TYPE), Some(issued + 604800)))
  {
  }

  /** After seven days a refresh token no longer verifies. */
  lemma RefreshTokenExpires(codec: Codec, userId: string, issued: int, now: int)
    requires Sound(codec)
    requires now > issued + REFRESH_TTL
    ensures VerifyToken(codec, CreateRefreshToken(codec, userId, issued), REFRESH_TYPE, now) == Err(INVALID_OR_EXPIRED)
  {
  }

  /** No token passes as both kinds, so a refresh token is never accepted
      where an access token is expected, and vice versa. */
  lemma TokenTypesExclusive(codec: Codec, token: string, now: int)
    ensures !(VerifyToken(codec, token, ACCESS_TYPE, now).Ok? && VerifyToken(codec, token, REFRESH_TYPE, now).Ok?)
  {
  }

  /** An issued refresh token is refused as an access token at any time, and
      an issued access token as a refresh token; while the token is unexpired
      the refusal reads "Invalid token type". */
  lemma IssuedTokensKeepTheirType(codec: Codec, userId: string, issued: int, now: int)
    requires Sound(codec)
    ensures VerifyToken(codec, CreateRefreshToken(codec, userId, issued), ACCESS_TYPE, now).Err?
    ensures VerifyToken(codec, CreateAccessToken(codec, userId, issued), REFRESH_TYPE, now).Err?
    ensures now <= issued + REFRESH_TTL ==>
      VerifyToken(codec, CreateRefreshToken(codec, userId, issued), ACCESS_TYPE, now) == Err(INVALID_TYPE)
    ensures now <= issued + ACCESS_TTL ==>
      VerifyToken(codec, CreateAccessToken(codec, userId, issued), REFRESH_TYPE, now) == Err(INVALID_TYPE)
  {
  }

  // ---------------------------------------------------------------------------
  // Requests and request checks
  // ---------------------------------------------------------------------------

  /** The parts of an incoming request the checks read. */
  datatype Request = Request(cookies: map<string, string>, headers: map<string, string>)

  /** `dict.get`. */
  function Lookup(m: map<string, string>, key: string): (r: Option<string>)
    ensures r.Some? <==> key in m
    ensures r.Some? ==> r.value == m[key]
  {
    if key in m then Some(m[key]) else None
  }

  /** `get_current_user`: the subject of the request's access cookie. A
      missing or empty cookie is "Not authenticated"; a verification failure
      is passed on unchanged; a verified token without "sub" raises
      `KeyError`. */
  function CurrentUser(codec: Codec, request: Request, now: int): (r: Result<string>)
    ensures !Truthy(Lookup(request.cookies, ACCESS_COOKIE_NAME)) ==> r == Err(NOT_AUTHENTICATED)
    ensures Truthy(Lookup(request.cookies, ACCESS_COOKIE_NAME))
         && VerifyToken(codec, request.cookies[ACCESS_COOKIE_NAME], ACCESS_TYPE, now).Err?
        ==> r == Err(VerifyToken(codec, request.cookies[ACCESS_COOKIE_NAME], ACCESS_TYPE, now).error)
    ensures r.Ok? <==>
      && Truthy(Lookup(request.cookies, ACCESS_COOKIE_NAME))
      && var v := VerifyToken(codec, request.cookies[ACCESS_COOKIE_NAME], ACCESS_TYPE, now);
         v.Ok? && v.value.sub.Some?
    ensures r.Ok? ==> VerifyToken(codec, request.cookies[ACCESS_COOKIE_NAME], ACCESS_TYPE, now).value.sub == Some(r.value)
    ensures Truthy(Lookup(request.cookies, ACCESS_COOKIE_NAME))
         && (var v := VerifyToken(codec, request.cookies[ACCESS_COOKIE_NAME], ACCESS_TYPE, now);
             v.Ok? && v.value.sub.None?)
        ==> r == Err(Crash)
  {
    var token := Lookup(request.cookies, ACCESS_COOKIE_NAME);
    if !Truthy(token) then Err(NOT_AUTHENTICATED)
    else
      match VerifyToken(codec, token.value, ACCESS_TYPE, now)
      case Err(e) => Err(e)
      case Ok(p) => if p.sub.Some? then Ok(p.sub.value) else Err(Crash)
  }

  /** `get_optional_user`: never raises. It gives the subject exactly when
      `get_current_user` would return one, and None otherwise (missing
      cookie, invalid, expired or wrong-type token, missing "sub"). */
  function OptionalUser(codec: Codec, request: Request, now: int): (r: Option<string>)
    ensures r == (if CurrentUser(codec, request, now).Ok? then Some(CurrentUser(codec, request, now).value) else None)
  {
    var token := Lookup(request.cookies, ACCESS_COOKIE_NAME);
    if !Truthy(token) then None
    else
      match VerifyToken(codec, token.value, ACCESS_TYPE, now)
      case Err(_) => None
      case Ok(p) => p.sub
  }

  /** Every character is ASCII. `secrets.compare_digest` accepts two `str`
      arguments only under this condition and raises `TypeError` otherwise. */
  predicate IsAsciiText(s: string)
  {
    forall i :: 0 <= i < |s| ==> IsAscii(s[i])
  }

  /** `csrf_protect`: the double-submit comparison of the `csrf_token` cookie
      with the `X-CSRF-Token` header. It passes exactly when both are present,
      non-empty, ASCII and equal. Either one missing or empty is "CSRF token
      missing". Two present values of which one is not ASCII make
      `compare_digest` raise, which nothing catches. Two different ASCII values
      are "Invalid CSRF token". */
  function CsrfProtect(request: Request): (r: Result<()>)
    ensures r.Ok? <==>
      && CSRF_COOKIE_NAME in request.cookies && CSRF_HEADER_NAME in request.headers
      && request.cookies[CSRF_COOKIE_NAME] != ""
      && IsAsciiText(request.cookies[CSRF_COOKIE_NAME])
      && request.cookies[CSRF_COOKIE_NAME] == request.headers[CSRF_HEADER_NAME]
    ensures !Truthy(Lookup(request.cookies, CSRF_COOKIE_NAME)) || !Truthy(Lookup(request.headers, CSRF_HEADER_NAME))
        ==> r == Err(CSRF_MISSING)
    ensures Truthy(Lookup(request.cookies, CSRF_COOKIE_NAME)) && Truthy(Lookup(request.headers, CSRF_HEADER_NAME))
         && !(IsAsciiText(request.cookies[CSRF_COOKIE_NAME]) && IsAsciiText(request.headers[CSRF_HEADER_NAME]))
        ==> r == Err(Crash)
    ensures Truthy(Lookup(request.cookies, CSRF_COOKIE_NAME)) && Truthy(Lookup(request.headers, CSRF_HEADER_NAME))
         && IsAsciiText(request.cookies[CSRF_COOKIE_NAME]) && IsAsciiText(request.headers[CSRF_HEADER_NAME])
         && request.cookies[CSRF_COOKIE_NAME] != request.headers[CSRF_HEADER_NAME]
        ==> r == Err(CSRF_INVALID)
  {
    var cookie := Lookup(request.cookies, CSRF_COOKIE_NAME);
    var header := Lookup(request.headers, CSRF_HEADER_NAME);
    if !Truthy(cookie) || !Truthy(header) then Err(CSRF_MISSING)
    else if !IsAsciiText(cookie.value) || !IsAsciiText(header.value) then Err(Crash)
    else if cookie.value != header.value then Err(CSRF_INVALID)
    else Ok(())
  }

  /** The first half of `refresh_access_token`: the subject of the request's
      refresh cookie, which must verify as a "refresh" token. A missing or
      empty cookie is "Missing refresh token", a verification failure is
      passed on unchanged, and a verified token without "sub" raises
      `KeyError`. */
  function RefreshSubject(codec: Codec, request: Request, now: int): (r: Result<string>)
    ensures !Truthy(Lookup(request.cookies, REFRESH_COOKIE_NAME)) ==> r == Err(MISSING_REFRESH)
    ensures Truthy(Lookup(request.cookies, REFRESH_COOKIE_NAME))
         && VerifyToken(codec, request.cookies[REFRESH_COOKIE_NAME], REFRESH_TYPE, now).Err?
        ==> r == Err(VerifyToken(codec, request.cookies[REFRESH_COOKIE_NAME], REFRESH_TYPE, now).error)
    ensures r.Ok? <==>
      && Truthy(Lookup(request.cookies, REFRESH_COOKIE_NAME))
      && var v := VerifyToken(codec, request.cookies[REFRESH_COOKIE_NAME], REFRESH_TYPE, now);
         v.Ok? && v.value.sub.Some?
    ensures r.Ok? ==> VerifyToken(codec, request.cookies[REFRESH_COOKIE_NAME], REFRESH_TYPE, now).value.sub == Some(r.value)
    ensures Truthy(Lookup(request.cookies, REFRESH_COOKIE_NAME))
         && (var v := VerifyToken(codec, request.cookies[REFRESH_COOKIE_NAME], REFRESH_TYPE, now);
             v.Ok? && v.value.sub.None?)
        ==> r == Err(Crash)
    ensures r.Err? && r.error.HttpError? ==> r.error.status == 401
  {
    var token := Lookup(request.cookies, REFRESH_COOKIE_NAME);
    if !Truthy(token) then Err(MISSING_REFRESH)
    else
      match VerifyToken(codec, token.value, REFRESH_TYPE, now)
      case Err(e) => Err(e)
      case Ok(p) => if p.sub.Some? then Ok(p.sub.value) else Err(Crash)
  }

  // ---------------------------------------------------------------------------
  // Responses and their cookies
  // ---------------------------------------------------------------------------

  /** The attributes of one `Set-Cookie` header. `maxAge == None` means no
      Max-Age attribute: a session cookie. */
  datatype Cookie = Cookie(value: string, httpOnly: bool, secure: bool, sameSite: string, maxAge: Option<int>)

  /** A Max-Age of zero or less makes the browser drop the cookie at once
      (section 5.2.2 of RFC 6265). */
  predicate Removes(c: Cookie)
  {
    c.maxAge.Some? && c.maxAge.value <= 0
  }

  /** What the framework's `delete_cookie` sends: an empty value with
      Max-Age 0 and the default attributes. */
  const REMOVAL: Cookie := Cookie("", false, false, "lax", Some(0))

  function AccessCookie(token: string): (c: Cookie)
    ensures c.value == token && c.httpOnly && c.maxAge == Some(900) && c.sameSite == "lax"
  {
    Cookie(token, true, COOKIE_SECURE, COOKIE_SAMESITE, Some(ACCESS_TTL))
  }

  function RefreshCookie(token: string): (c: Cookie)
    ensures c.value == token && c.httpOnly && c.maxAge == Some(604800) && c.sameSite == "lax"
  {
    Cookie(token, true, COOKIE_SECURE, COOKIE_SAMESITE, Some(REFRESH_TTL))
  }

  function CsrfCookie(token: string): (c: Cookie)
    ensures c.value == token && !c.httpOnly && c.maxAge.None? && c.sameSite == "lax"
  {
    Cookie(token, false, COOKIE_SECURE, COOKIE_SAMESITE, None)
  }

  /** An outgoing response, reduced to the cookies it sets. Setting a cookie
      twice keeps the later header, as the browser applies them in order. */
  class Response {
    var cookies: map<string, Cookie>

    constructor ()
      ensures cookies == map[]
    {
      cookies := map[];
    }

    /** `Response.set_cookie`. */
    method SetCookie(name: string, c: Cookie)
      modifies this
      ensures cookies == old(cookies)[name := c]
    {
      cookies := cookies[name := c];
    }

    /** `Response.delete_cookie`. */
    method DeleteCookie(name: string)
      modifies this
      ensures cookies == old(cookies)[name := REMOVAL]
    {
      cookies := cookies[name := REMOVAL];
    }
  }

  /** What `secrets.token_urlsafe(32)` returns: 32 random bytes in unpadded
      URL-safe base64, that is 43 characters from `[A-Za-z0-9_-]`. */
  predicate IsUrlSafeToken(t: string)
  {
    && |t| == 43
    && forall i :: 0 <= i < |t| ==>
         ('A' <= t[i] <= 'Z') || ('a' <= t[i] <= 'z') || ('0' <= t[i] <= '9') || t[i] == '_' || t[i] == '-'
  }

  /** `set_auth_cookies`: sets the access cookie (HttpOnly, fifteen minutes),
      the refresh cookie (HttpOnly, seven days) and the CSRF cookie (readable
      by scripts, no Max-Age), all SameSite=lax, and nothing else. The random
      CSRF token and the clock are parameters. */
  method SetAuthCookies(response: Response, codec: Codec, userId: string, csrfToken: string, now: int)
    modifies response
    ensures response.cookies == old(response.cookies)
      [ACCESS_COOKIE_NAME := AccessCookie(CreateAccessToken(codec, userId, now))]
      [REFRESH_COOKIE_NAME := RefreshCookie(CreateRefreshToken(codec, userId, now))]
      [CSRF_COOKIE_NAME := CsrfCookie(csrfToken)]
    ensures forall name :: name in SessionCookies(codec, userId, csrfToken, now) ==>
      name in response.cookies && response.cookies[name].value == SessionCookies(codec, userId, csrfToken, now)[name]
  {
    var accessToken := CreateAccessToken(codec, userId, now);
    var refreshToken := CreateRefreshToken(codec, userId, now);
    response.SetCookie(ACCESS_COOKIE_NAME, AccessCookie(accessToken));
    response.SetCookie(REFRESH_COOKIE_NAME, RefreshCookie(refreshToken));
    response.SetCookie(CSRF_COOKIE_NAME, CsrfCookie(csrfToken));
  }

  /** `clear_auth_cookies`: removes the three session cookies, and nothing
      else. */
  method ClearAuthCookies(response: Response)
    modifies response
    ensures response.cookies == old(response.cookies)
      [ACCESS_COOKIE_NAME := REMOVAL][REFRESH_COOKIE_NAME := REMOVAL][CSRF_COOKIE_NAME := REMOVAL]
    ensures Removes(response.cookies[ACCESS_COOKIE_NAME]) && Removes(response.cookies[REFRESH_COOKIE_NAME])
    ensures Removes(response.cookies[CSRF_COOKIE_NAME])
  {
    response.DeleteCookie(ACCESS_COOKIE_NAME);
    response.DeleteCookie(REFRESH_COOKIE_NAME);
    response.DeleteCookie(CSRF_COOKIE_NAME);
  }

  /** `refresh_access_token`: on success sets a new access cookie for the
      refresh token's subject and leaves every other cookie (refresh and CSRF
      included) as it was; on failure the response is unchanged and the
      failure is that of `RefreshSubject`. */
  method RefreshAccessToken(request: Request, response: Response, codec: Codec, now: int) returns (r: Result<()>)
    modifies response
    ensures RefreshSubject(codec, request, now).Err? ==>
      r == Err(RefreshSubject(codec, request, now).error) && response.cookies == old(response.cookies)
    ensures RefreshSubject(codec, request, now).Ok? ==>
      && r == Ok(())
      && response.cookies == old(response.cookies)
           [ACCESS_COOKIE_NAME := AccessCookie(CreateAccessToken(codec, RefreshSubject(codec, request, now).value, now))]
  {
    var token := Lookup(request.cookies, REFRESH_COOKIE_NAME);
    if !Truthy(token) {
      return Err(MISSING_REFRESH);
    }
    var verified := VerifyToken(codec, token.value, REFRESH_TYPE, now);
    if verified.Err? {
      return Err(verified.error);
    }
    if verified.value.sub.None? {
      return Err(Crash);
    }
    var newAccessToken := CreateAccessToken(codec, verified.value.sub.value, now);
    response.SetCookie(ACCESS_COOKIE_NAME, AccessCookie(newAccessToken));
    r := Ok(());
  }

  // ---------------------------------------------------------------------------
  // Sessions end to end
  // ---------------------------------------------------------------------------

  /** The cookies a browser sends back after `set_auth_cookies`. */
  function SessionCookies(codec: Codec, userId: string, csrfToken: string, issued: int): map<string, string>
  {
    map[ACCESS_COOKIE_NAME := CreateAccessToken(codec, userId, issued),
        REFRESH_COOKIE_NAME := CreateRefreshToken(codec, userId, issued),
        CSRF_COOKIE_NAME := csrfToken]
  }

  /** Within fifteen minutes of login the session authenticates its user,
      through both the mandatory and the optional check. */
  lemma SessionAuthenticates(codec: Codec, userId: string, csrfToken: string, issued: int, now: int)
    requires Sound(codec)
    requires now <= issued + ACCESS_TTL
    ensures CurrentUser(codec, Request(SessionCookies(codec, userId, csrfToken, issued), map[]), now) == Ok(userId)
    ensures OptionalUser(codec, Request(SessionCookies(codec, userId, csrfToken, issued), map[]), now) == Some(userId)
  {
    var request := Request(SessionCookies(codec, userId, csrfToken, issued), map[]);
    assert request.cookies[ACCESS_COOKIE_NAME] == CreateAccessToken(codec, userId, issued);
    AccessTokenRoundTrip(codec, userId, issued, now);
  }

  /** After fifteen minutes the session no longer authenticates, until it is
      refreshed. */
  lemma SessionAccessExpires(codec: Codec, userId: string, csrfToken: string, issued: int, now: int)
    requires Sound(codec)
    requires now > issued + ACCESS_TTL
    ensures CurrentUser(codec, Request(SessionCookies(codec, userId, csrfToken, issued), map[]), now) == Err(INVALID_OR_EXPIRED)
    ensures OptionalUser(codec, Request(SessionCookies(codec, userId, csrfToken, issued), map[]), now) == None
  {
    var request := Request(SessionCookies(codec, userId, csrfToken, issued), map[]);
    assert request.cookies[ACCESS_COOKIE_NAME] == CreateAccessToken(codec, userId, issued);
    AccessTokenExpires(codec, userId, issued, now);
  }

  /** Within seven days of login the refresh cookie yields the session's user. */
  lemma SessionRefreshes(codec: Codec, userId: string, csrfToken: string, issued: int, now: int)
    requires Sound(codec)
    requires now <= issued + REFRESH_TTL
    ensures RefreshSubject(codec, Request(SessionCookies(codec, userId, csrfToken, issued), map[]), now) == Ok(userId)
  {
    var request := Request(SessionCookies(codec, userId, csrfToken, issued), map[]);
    assert request.cookies[REFRESH_COOKIE_NAME] == CreateRefreshToken(codec, userId, issued);
    RefreshTokenRoundTrip(codec, userId, issued, now);
  }

  /** A mutating request that echoes the session's CSRF cookie in the
      `X-CSRF-Token` header passes the CSRF check; one carrying any other
      header value does not. */
  lemma SessionCsrf(codec: Codec, userId: string, csrfToken: string, issued: int, header: string)
    requires IsUrlSafeToken(csrfToken)
    ensures CsrfProtect(Request(SessionCookies(codec, userId, csrfToken, issued), map[CSRF_HEADER_NAME := header])).Ok?
        <==> header == csrfToken
    ensures header != "" && IsAsciiText(header) && header != csrfToken ==>
      CsrfProtect(Request(SessionCookies(codec, userId, csrfToken, issued), map[CSRF_HEADER_NAME := header])) == Err(CSRF_INVALID)
  {
    var request := Request(SessionCookies(codec, userId, csrfToken, issued), map[CSRF_HEADER_NAME := header]);
    assert request.cookies[CSRF_COOKIE_NAME] == csrfToken;
    assert IsAsciiText(csrfToken);
  }
}
