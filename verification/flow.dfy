/**
  The flow controller of the helper: the client side of the OAuth 2.0
  authorization-code grant (section 4.1 of RFC 6749) with refresh-token
  renewal (section 6 of RFC 6749) and the `state` check against cross-site
  request forgery (section 10.12 of RFC 6749).

  Each operation takes the session and returns the session it leaves, the
  redemption it sent to the identity provider (if any) and its result. The
  identity provider's answer, the clock, the enumeration order of the
  session and the fresh state value are parameters.
 */
module Flow {
  import opened Optional
  import opened Text
  import opened Clock
  import opened SessionCache
  import opened Outcomes
  import opened TokenStore
  import opened StateTracker
  import opened QueryString
  import opened SessionInvariant

  /** The application settings the helper reads. */
  datatype Config = Config(
    clientId: string,       // ida:ClientId
    resourceId: string,     // ida:ResourceId
    aadInstance: string,    // ida:AADInstance, assumed to end with `{0}`: the text before it
    oauthRedirect: string)  // ida:OAuthRedirect, the path of the callback page

  /** What the helper reads from the current HTTP request. */
  datatype Request = Request(
    scheme: string,
    isLoopback: bool,
    authority: string,                 // the URL up to and including the host and port
    url: string,                       // the whole request URL
    errorDescription: Option<string>)  // the `error_description` query parameter

  /** The identity provider's answer to a redemption: tokens, or an exception. */
  datatype TokenReply =
    | Granted(accessToken: string, refreshToken: string, expiresOn: Instant, tenantId: string)
    | Refused

  /** A redemption sent to the identity provider. */
  datatype Exchange =
    | RedeemCode(authority: string, code: Option<string>, redirectUri: string, clientId: string)
    | RedeemRefreshToken(authority: string, refreshToken: string, clientId: string, resourceId: string)

  /** The session an operation leaves, the redemption it sent, and its result. */
  datatype Reply<+T> = Reply(session: Session, exchange: Option<Exchange>, result: Result<T>)

  /** A cached access token is treated as expired this long before the provider says it is. */
  const SafetyMargin: int := 5 * Minute

  /** The tenant-independent endpoint used for the sign-in redirect and the code redemption. */
  const CommonTenant: string := "common"

  /** `ida:AADInstance` with its placeholder filled in. */
  function Authority(cfg: Config, tenant: string): string {
    cfg.aadInstance + tenant
  }

  /** The address of the callback page on the host of the current request. */
  function RedirectUri(cfg: Config, req: Request): string {
    req.authority + cfg.oauthRedirect
  }

  /** OAuth is only done over https, except for requests from the local machine. */
  predicate Secure(req: Request) {
    req.scheme == "https" || req.isLoopback
  }

  /** A failure of one of the four checks the callback makes before redeeming the code. */
  predicate IsCheckFailure(f: Failure) {
    f == InsecureTransport || f == MissingState || f == InvalidState || f.IdpReportedError?
  }

  /**
    The callback after the identity provider signs the user in. In order:
    the transport must be secure, a `state` must be present and outstanding,
    the state is consumed, and the provider must not report an error; then
    the code is redeemed, the tokens and the tenant are stored, and the
    address stored under `RedirectTo` is returned (and kept).
   */
  function ProcessAccessTokenAndGetReturnUrl(
    cfg: Config, s: Session, order: seq<string>, now: Instant, req: Request,
    code: Option<string>, error: Option<string>, state: Option<string>, reply: TokenReply): (r: Reply<string>)
    ensures r.exchange.Some? ==>
      r.exchange.value == RedeemCode(Authority(cfg, CommonTenant), code, RedirectUri(cfg, req), cfg.clientId)
    ensures r.exchange.None? <==>
      r.result.Err? && (IsCheckFailure(r.result.failure) || r.result.failure == MalformedExpiry)
    ensures r.exchange.None? ==> SameOutsideTracker(s, r.session)
  {
    if !Secure(req) then Reply(s, None, Err(InsecureTransport))
    else if state.None? then Reply(s, None, Err(MissingState))
    else ConsumeState(cfg, s, order, now, req, code, error, state.value, reply)
  }

  /**
    The callback from the state lookup on: the lookup sweeps the tracker,
    the state is removed whether or not it was found, and the rest of the
    callback goes on with the consumed session.
   */
  function ConsumeState(cfg: Config, s: Session, order: seq<string>, now: Instant, req: Request,
                        code: Option<string>, error: Option<string>, state: string, reply: TokenReply): (r: Reply<string>)
    ensures r.exchange.Some? ==>
      r.exchange.value == RedeemCode(Authority(cfg, CommonTenant), code, RedirectUri(cfg, req), cfg.clientId)
    ensures r.exchange.None? <==>
      r.result.Err? && (IsCheckFailure(r.result.failure) || r.result.failure == MalformedExpiry)
    ensures r.exchange.None? ==> SameOutsideTracker(s, r.session)
  {
    var found := FindOAuthStateInCache(s, order, now, state);
    match found.result
    case Err(f) => Reply(found.session, None, Err(f))
    case Ok(ok) =>
      var s1 := RemoveOAuthStateFromCache(found.session, order, state);
      ConsumedKeepsOutside(s, order, now, state);
      RedeemAfterStateCheck(cfg, s1, ok, req, code, error, reply)
  }

  /**
    The callback once the state has been looked up (`found`) and consumed
    (`s1`): an unknown state or a provider error stops it; otherwise the
    code is redeemed and, when granted, the tokens are stored and the
    stored return address is returned.
   */
  function RedeemAfterStateCheck(cfg: Config, s1: Session, found: bool, req: Request,
                                 code: Option<string>, error: Option<string>, reply: TokenReply): (r: Reply<string>)
    ensures r.exchange.Some? ==>
      r.exchange.value == RedeemCode(Authority(cfg, CommonTenant), code, RedirectUri(cfg, req), cfg.clientId)
    ensures r.exchange.None? <==> r.result.Err? && IsCheckFailure(r.result.failure)
    ensures r.exchange.None? ==> r.session == s1
  {
    if !found then Reply(s1, None, Err(InvalidState))
    else if error.Some? then Reply(s1, None, Err(IdpReportedError(req.errorDescription.GetOr(""))))
    else
      var exchange := RedeemCode(Authority(cfg, CommonTenant), code, RedirectUri(cfg, req), cfg.clientId);
      match reply
      case Refused => Reply(s1, Some(exchange), Err(CodeRedemptionFailed))
      case Granted(accessToken, refreshToken, expiresOn, tenantId) =>
        var s4 := StoreGrantedTokens(s1, cfg.resourceId, accessToken, refreshToken, expiresOn, tenantId);
        match GetFromCache(s4, "RedirectTo")
        case None => Reply(s4, Some(exchange), Err(MissingReturnUrl))
        case Some(returnUrl) => Reply(s4, Some(exchange), Ok(returnUrl))
  }

  /**
    What a granted code redemption writes: the access token for the
    configured resource, expiring `SafetyMargin` before the provider says,
    the new refresh token, and the tenant.
   */
  function StoreGrantedTokens(s1: Session, resourceId: string, accessToken: string, refreshToken: string,
                              expiresOn: Instant, tenantId: string): Session
  {
    var s2 := SaveAccessTokenInCache(s1, resourceId, accessToken, expiresOn - SafetyMargin);
    var s3 := SaveRefreshTokenInCache(s2, refreshToken);
    SaveInCache(s3, "TenantId", tenantId)
  }

  /** The parameters the sign-in redirect carries to the identity provider, in order. */
  function AuthorizeParameters(clientId: string, resourceId: string, redirectUrl: string, state: string): seq<(string, string)> {
    [("response_type", "code"), ("client_id", clientId), ("resource", resourceId),
     ("redirect_uri", redirectUrl), ("state", state)]
  }

  /**
    The query of the sign-in redirect. The identity provider reads back from
    it exactly the values the helper put in, whatever characters they hold,
    and it holds no `?`.
   */
  function AuthorizeQuery(clientId: string, resourceId: string, redirectUrl: string, state: string): (q: string)
    ensures ParseQuery(q) == Some(AuthorizeParameters(clientId, resourceId, redirectUrl, state))
    ensures '?' !in q
  {
    var ps := AuthorizeParameters(clientId, resourceId, redirectUrl, state);
    assert PlainName("response_type") && PlainName("client_id") && PlainName("resource");
    assert PlainName("redirect_uri") && PlainName("state");
    QueryRoundTrip(ps);
    Query(ps)
  }

  /** The sign-in address of the tenant-independent endpoint. */
  function AuthorizeEndpoint(cfg: Config): string {
    Authority(cfg, CommonTenant + "/oauth2/authorize")
  }

  /**
    Issues `nonce` (a fresh GUID in the running system) as a state value at
    `now` and builds the sign-in redirect carrying it: an address on the
    authorize endpoint whose parameters read back as the client, the
    resource, the callback address and the state.
   */
  function GetAuthorizationUrl(cfg: Config, s: Session, now: Instant, nonce: string,
                               resourceId: string, redirectUrl: string): (r: Outcome<string>)
    ensures r.result.Ok?
    ensures r.session == AddOAuthStateToCache(s, now, nonce)
    ensures StartsWith(r.result.value, AuthorizeEndpoint(cfg) + "?")
    ensures UrlParameters(r.result.value) == Some(AuthorizeParameters(cfg.clientId, resourceId, redirectUrl, nonce))
  {
    var query := AuthorizeQuery(cfg.clientId, resourceId, redirectUrl, nonce);
    AfterLastOfSeparated(AuthorizeEndpoint(cfg) + "?", query, '?');
    StartsWithAppend(AuthorizeEndpoint(cfg) + "?", query);
    Outcome(AddOAuthStateToCache(s, now, nonce), Ok(AuthorizeEndpoint(cfg) + "?" + query))
  }

  /** The overload that takes only the callback address: the configured resource. */
  function GetAuthorizationUrlTo(cfg: Config, s: Session, now: Instant, nonce: string, redirectUrl: string): (r: Outcome<string>)
    ensures r.result.Ok? && r.session == AddOAuthStateToCache(s, now, nonce)
    ensures StartsWith(r.result.value, AuthorizeEndpoint(cfg) + "?")
    ensures UrlParameters(r.result.value) == Some(AuthorizeParameters(cfg.clientId, cfg.resourceId, redirectUrl, nonce))
  {
    GetAuthorizationUrl(cfg, s, now, nonce, cfg.resourceId, redirectUrl)
  }

  /**
    The parameterless overload: the configured resource, and the callback
    page on the host of the current request, which is the address the code
    redemption later names.
   */
  function GetAuthorizationUrlForRequest(cfg: Config, s: Session, now: Instant, nonce: string, req: Request): (r: Outcome<string>)
    ensures r.result.Ok? && r.session == AddOAuthStateToCache(s, now, nonce)
    ensures StartsWith(r.result.value, AuthorizeEndpoint(cfg) + "?")
    ensures UrlParameters(r.result.value) == Some(AuthorizeParameters(cfg.clientId, cfg.resourceId, RedirectUri(cfg, req), nonce))
  {
    GetAuthorizationUrl(cfg, s, now, nonce, cfg.resourceId, RedirectUri(cfg, req))
  }

  /**
    Renews the access token for `resourceId` with the stored refresh token.
    Without one, nothing happens. When the provider refuses, the refresh
    token is dropped. When it grants, the new access token (expiring
    `SafetyMargin` early) and the new refresh token are stored.
   */
  function GetAccessTokenFromRefreshToken(cfg: Config, s: Session, tenantId: string, resourceId: string,
                                          reply: TokenReply): (r: Reply<Option<string>>)
    ensures r.result.Ok?
    ensures r.exchange.Some? <==> RefreshTokenKey() in s
    ensures r.exchange.Some? ==>
      r.exchange.value == RedeemRefreshToken(Authority(cfg, tenantId), s[RefreshTokenKey()], cfg.clientId, resourceId)
  {
    match GetRefreshTokenFromCache(s)
    case None => Reply(s, None, Ok(None))
    case Some(refreshToken) =>
      var exchange := RedeemRefreshToken(Authority(cfg, tenantId), refreshToken, cfg.clientId, resourceId);
      match reply
      case Refused => Reply(RemoveRefreshTokenFromCache(s), Some(exchange), Ok(None))
      case Granted(accessToken, newRefreshToken, expiresOn, _) =>
        var s1 := SaveAccessTokenInCache(s, resourceId, accessToken, expiresOn - SafetyMargin);
        Reply(SaveRefreshTokenInCache(s1, newRefreshToken), Some(exchange), Ok(Some(accessToken)))
  }

  /**
    The access token for `resourceId`: the cached one while it is live,
    otherwise whatever renewal with the refresh token yields (absent when
    the user has to sign in again).
   */
  function GetAccessTokenFromCacheOrRefreshToken(cfg: Config, s: Session, now: Instant, tenantId: string,
                                                 resourceId: string, reply: TokenReply): (r: Reply<Option<string>>)
    ensures r.result.Ok? || r.result == Err(MalformedExpiry)
    ensures r.result.Err? ==> r.exchange.None? && r.session == s
  {
    var cached := GetAccessTokenFromCache(s, resourceId, now);
    match cached.result
    case Err(f) => Reply(cached.session, None, Err(f))
    case Ok(Some(token)) => Reply(cached.session, None, Ok(Some(token)))
    case Ok(None) => GetAccessTokenFromRefreshToken(cfg, cached.session, tenantId, resourceId, reply)
  }

  /**
    The parameterless overload for the signed-in user: the configured
    resource, the tenant from the user's claims, and, when no token can be
    had, the current address remembered under `RedirectTo` for after the
    sign-in.
   */
  function GetAccessTokenForSignedInUser(cfg: Config, s: Session, now: Instant, tenantClaim: string,
                                         req: Request, reply: TokenReply): (r: Reply<Option<string>>)
    ensures var inner := GetAccessTokenFromCacheOrRefreshToken(cfg, s, now, tenantClaim, cfg.resourceId, reply);
      && r.result == inner.result && r.exchange == inner.exchange
      && (r.result == Ok(None) ==> GetFromCache(r.session, "RedirectTo") == Some(req.url))
      && (r.result != Ok(None) ==> r.session == inner.session)
      && Untouched(inner.session, r.session, {CacheKey("RedirectTo")})
  {
    var inner := GetAccessTokenFromCacheOrRefreshToken(cfg, s, now, tenantClaim, cfg.resourceId, reply);
    if inner.result == Ok(None) then Reply(SaveInCache(inner.session, "RedirectTo", req.url), inner.exchange, inner.result)
    else inner
  }
}
