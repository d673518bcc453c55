/**
  What the flow controller promises: the order of the callback's checks,
  that the `state` is single-use, what a successful callback stores, that a
  live cached token is served without the identity provider, the three
  outcomes of renewal, and that the session stays well formed.
 */
module FlowProperties {
  import opened Optional
  import opened Clock
  import opened SessionCache
  import opened Outcomes
  import opened TokenStore
  import opened StateTracker
  import opened QueryString
  import opened SessionInvariant
  import opened Flow

  /**
    The callback's checks in terms of what was issued: on a well-formed
    session, it fails on an insecure transport first, then on a missing
    state, then on a state that is not outstanding, then on a provider
    error, and only when all four pass does it redeem the code.
   */
  lemma CallbackChecksInOrder(cfg: Config, s: Session, order: seq<string>, now: Instant, req: Request,
                              code: Option<string>, error: Option<string>, state: Option<string>, reply: TokenReply)
    requires WellFormed(s) && Enumerates(order, s)
    ensures var r := ProcessAccessTokenAndGetReturnUrl(cfg, s, order, now, req, code, error, state, reply);
      && (r.result == Err(InsecureTransport) <==> !Secure(req))
      && (r.result == Err(MissingState) <==> Secure(req) && state.None?)
      && (r.result == Err(InvalidState) <==>
            Secure(req) && state.Some? && !Outstanding(s, state.value, now))
      && (r.result == Err(IdpReportedError(req.errorDescription.GetOr(""))) <==>
            Secure(req) && state.Some? && Outstanding(s, state.value, now) && error.Some?)
      && (r.exchange.Some? <==>
            Secure(req) && state.Some? && Outstanding(s, state.value, now) && error.None?)
      && r.result != Err(MalformedExpiry)
  {
    if Secure(req) && state.Some? {
      FindIsOutstanding(s, order, now, state.value);
      WellFormedHasNoMalformedExpiry(s);
      PastStateCheck(cfg, s, order, now, req, code, error, state.value, reply);
    }
  }

  /**
    A callback that fails one of its checks sends nothing to the identity
    provider and writes no access token, no refresh token, no tenant and no
    return address: only tracker keys can have changed.
   */
  lemma FailedChecksWriteNoTokens(cfg: Config, s: Session, order: seq<string>, now: Instant, req: Request,
                                  code: Option<string>, error: Option<string>, state: Option<string>,
                                  reply: TokenReply, resourceId: string)
    ensures var r := ProcessAccessTokenAndGetReturnUrl(cfg, s, order, now, req, code, error, state, reply);
      r.result.Err? && IsCheckFailure(r.result.failure) ==>
        && r.exchange.None?
        && Agree(s, r.session, AccessTokenKey(resourceId))
        && Agree(s, r.session, AccessTokenExpirationKey(resourceId))
        && GetRefreshTokenFromCache(r.session) == GetRefreshTokenFromCache(s)
        && GetFromCache(r.session, "TenantId") == GetFromCache(s, "TenantId")
        && GetFromCache(r.session, "RedirectTo") == GetFromCache(s, "RedirectTo")
  {
    var r := ProcessAccessTokenAndGetReturnUrl(cfg, s, order, now, req, code, error, state, reply);
    HelperKeysAreNotTracker(resourceId);
    if r.exchange.None? {
      assert Agree(s, r.session, AccessTokenKey(resourceId));
      assert Agree(s, r.session, AccessTokenExpirationKey(resourceId));
      assert Agree(s, r.session, RefreshTokenKey());
      assert Agree(s, r.session, CacheKey("TenantId"));
      assert Agree(s, r.session, CacheKey("RedirectTo"));
    }
  }

  /**
    An unknown state is reported after a clean-up removal that finds nothing
    to remove: the session is left exactly as the lookup's sweep left it.
   */
  lemma InvalidStateRemovesNothing(cfg: Config, s: Session, order: seq<string>, now: Instant, req: Request,
                                   code: Option<string>, error: Option<string>, state: Option<string>, reply: TokenReply)
    ensures var r := ProcessAccessTokenAndGetReturnUrl(cfg, s, order, now, req, code, error, state, reply);
      r.result == Err(InvalidState) ==> r.session == SweepExpiredStates(s, now)
  {
  }

  /**
    Past the state check, the callback leaves the tracker exactly as the
    sweep and the removal of the state left it.
   */
  lemma TrackerAfterStateCheck(cfg: Config, s: Session, order: seq<string>, now: Instant, req: Request,
                               code: Option<string>, error: Option<string>, state: string, reply: TokenReply)
    requires var r := ProcessAccessTokenAndGetReturnUrl(cfg, s, order, now, req, code, error, Some(state), reply);
      !(r.result.Err? && r.result.failure in {InsecureTransport, MissingState, InvalidState, MalformedExpiry})
    ensures var r := ProcessAccessTokenAndGetReturnUrl(cfg, s, order, now, req, code, error, Some(state), reply);
      SameTracker(RemoveOAuthStateFromCache(SweepExpiredStates(s, now), order, state), r.session)
  {
    if Secure(req) && !HasMalformedStateExpiry(s) {
      PastStateCheck(cfg, s, order, now, req, code, error, state, reply);
      var found := FindOAuthStateInCache(s, order, now, state);
      RedeemKeepsTracker(cfg, Consumed(s, order, now, state), found.result.value, req, code, error, reply);
    }
  }

  /** Once the transport is secure and the lookup raises nothing, the callback goes on with the consumed session. */
  lemma PastStateCheck(cfg: Config, s: Session, order: seq<string>, now: Instant, req: Request,
                       code: Option<string>, error: Option<string>, state: string, reply: TokenReply)
    requires Secure(req) && !HasMalformedStateExpiry(s)
    ensures FindOAuthStateInCache(s, order, now, state).result.Ok?
    ensures ProcessAccessTokenAndGetReturnUrl(cfg, s, order, now, req, code, error, Some(state), reply)
         == RedeemAfterStateCheck(cfg, Consumed(s, order, now, state),
                                  FindOAuthStateInCache(s, order, now, state).result.value, req, code, error, reply)
  {
    var found := FindOAuthStateInCache(s, order, now, state);
    assert found.session == SweepExpiredStates(s, now);
  }

  /** What follows the state check never touches the tracker. */
  lemma RedeemKeepsTracker(cfg: Config, s1: Session, found: bool, req: Request,
                           code: Option<string>, error: Option<string>, reply: TokenReply)
    ensures SameTracker(s1, RedeemAfterStateCheck(cfg, s1, found, req, code, error, reply).session)
  {
    var r := RedeemAfterStateCheck(cfg, s1, found, req, code, error, reply);
    if found && error.None? && reply.Granted? {
      StoreGrantedTokensEffects(s1, cfg.resourceId, reply.accessToken, reply.refreshToken, reply.expiresOn, reply.tenantId);
    } else {
      forall k | IsTrackerKey(k) ensures Agree(s1, r.session, k) {
      }
    }
  }

  /** A value that no state key holds is not found, and a well-formed session raises nothing. */
  lemma UnheldStateNotFound(s: Session, order: seq<string>, now: Instant, state: string)
    requires StatesWellFormed(s) && forall k :: !HoldsState(s, k, state)
    ensures FindOAuthStateInCache(s, order, now, state) == Outcome(SweepExpiredStates(s, now), Ok(false))
  {
    forall k | k in s && IsStateExpirationKey(k) ensures Parse(s[k]).Some? {
      StampOfWellFormedKey(s, k);
    }
    var swept := SweepExpiredStates(s, now);
    forall j | 0 <= j < |order| ensures !HoldsState(swept, order[j], state) {
      assert !HoldsState(s, order[j], state);
    }
  }

  /** A callback carrying a state that no state key holds is refused before any redemption. */
  lemma UnheldStateIsRefused(cfg: Config, s: Session, order: seq<string>, now: Instant, req: Request,
                             code: Option<string>, error: Option<string>, state: string, reply: TokenReply)
    requires StatesWellFormed(s) && forall k :: !HoldsState(s, k, state)
    ensures var r := ProcessAccessTokenAndGetReturnUrl(cfg, s, order, now, req, code, error, Some(state), reply);
      && (r.result == Err(InsecureTransport) || r.result == Err(InvalidState))
      && r.exchange.None?
  {
    UnheldStateNotFound(s, order, now, state);
  }

  /**
    The state is single-use. After a callback that got past the state check
    (whatever happened next), a second callback carrying the same state is
    refused, at any time and whatever the provider would answer, before
    any redemption.
   */
  lemma NoReplay(cfg: Config, s: Session, order: seq<string>, now: Instant, req: Request,
                 code: Option<string>, error: Option<string>, state: string, reply: TokenReply,
                 order': seq<string>, now': Instant, req': Request,
                 code': Option<string>, error': Option<string>, reply': TokenReply)
    requires WellFormed(s) && UniqueStates(s) && Enumerates(order, s)
    requires var first := ProcessAccessTokenAndGetReturnUrl(cfg, s, order, now, req, code, error, Some(state), reply);
      !(first.result.Err? && first.result.failure in {InsecureTransport, MissingState, InvalidState})
    ensures var first := ProcessAccessTokenAndGetReturnUrl(cfg, s, order, now, req, code, error, Some(state), reply);
      var second := ProcessAccessTokenAndGetReturnUrl(cfg, first.session, order', now', req', code', error', Some(state), reply');
      && (second.result == Err(InsecureTransport) || second.result == Err(InvalidState))
      && second.exchange.None?
  {
    var first := ProcessAccessTokenAndGetReturnUrl(cfg, s, order, now, req, code, error, Some(state), reply);
    CallbackChecksInOrder(cfg, s, order, now, req, code, error, Some(state), reply);
    var swept := SweepExpiredStates(s, now);
    SweepKeepsExactlyUnexpired(s, now);
    SubsessionKeepsUnique(s, swept);
    var s1 := RemoveOAuthStateFromCache(swept, order, state);
    RemoveConsumes(swept, order, state);
    RemovePreservesInvariants(swept, order, state);
    TrackerAfterStateCheck(cfg, s, order, now, req, code, error, state, reply);
    SameTrackerKeepsStates(s1, first.session);
    UnheldStateIsRefused(cfg, first.session, order', now', req', code', error', state, reply');
  }

  /**
    The three writes of a granted callback: the token is live exactly until
    `SafetyMargin` before the provider's expiry, the refresh token and the
    tenant are replaced, and every other key keeps its entry.
   */
  lemma StoreGrantedTokensEffects(s1: Session, res: string, accessToken: string, refreshToken: string,
                          expiresOn: Instant, tenantId: string)
    ensures var s4 := StoreGrantedTokens(s1, res, accessToken, refreshToken, expiresOn, tenantId);
      && AccessTokenKey(res) in s4 && s4[AccessTokenKey(res)] == accessToken
      && (forall t :: Live(s4, res, t) <==> t <= expiresOn - SafetyMargin)
      && GetRefreshTokenFromCache(s4) == Some(refreshToken)
      && GetFromCache(s4, "TenantId") == Some(tenantId)
      && Untouched(s1, s4, {AccessTokenKey(res), AccessTokenExpirationKey(res), RefreshTokenKey(), CacheKey("TenantId")})
      && SameTracker(s1, s4)
      && (WellFormed(s1) ==> WellFormed(s4))
  {
    var s2 := SaveAccessTokenInCache(s1, res, accessToken, expiresOn - SafetyMargin);
    var s3 := SaveRefreshTokenInCache(s2, refreshToken);
    var s4 := SaveInCache(s3, "TenantId", tenantId);
    var touched := {AccessTokenKey(res), AccessTokenExpirationKey(res), RefreshTokenKey(), CacheKey("TenantId")};
    NamedKeysDistinct(res);
    TokenKeysDistinct(res, res);
    forall k | k !in touched ensures Agree(s1, s4, k) {
      assert Agree(s1, s2, k) && Agree(s2, s3, k) && Agree(s3, s4, k);
    }
    assert Agree(s2, s3, AccessTokenKey(res)) && Agree(s3, s4, AccessTokenKey(res));
    assert Agree(s2, s3, AccessTokenExpirationKey(res)) && Agree(s3, s4, AccessTokenExpirationKey(res));
    assert Agree(s3, s4, RefreshTokenKey());
    HelperWritesKeepTracker(s1, res, accessToken, expiresOn - SafetyMargin, "TenantId", "");
    HelperWritesKeepTracker(s2, res, refreshToken, 0, "TenantId", "");
    HelperWritesKeepTracker(s3, res, "", 0, "TenantId", tenantId);
    forall k | IsTrackerKey(k) ensures Agree(s1, s4, k) {
      assert Agree(s1, s2, k) && Agree(s2, s3, k) && Agree(s3, s4, k);
    }
    if WellFormed(s1) {
      TokenWritesPreserveWellFormed(s1, res, accessToken, expiresOn - SafetyMargin);
      TokenWritesPreserveWellFormed(s2, res, refreshToken, 0);
      NamedWritesKeepTokens(s3, "TenantId", tenantId);
      SameTrackerKeepsStates(s1, s4);
    }
  }

  /** A granted callback that redeemed its code leaves the consumed session with the grant stored on it. */
  lemma GrantedCallbackSession(cfg: Config, s: Session, order: seq<string>, now: Instant, req: Request,
                               code: Option<string>, error: Option<string>, state: Option<string>,
                               accessToken: string, refreshToken: string, expiresOn: Instant, tenantId: string)
    requires ProcessAccessTokenAndGetReturnUrl(cfg, s, order, now, req, code, error, state,
                                               Granted(accessToken, refreshToken, expiresOn, tenantId)).exchange.Some?
    ensures state.Some?
    ensures var r := ProcessAccessTokenAndGetReturnUrl(cfg, s, order, now, req, code, error, state,
                                                       Granted(accessToken, refreshToken, expiresOn, tenantId));
      var s4 := StoreGrantedTokens(Consumed(s, order, now, state.value), cfg.resourceId, accessToken, refreshToken, expiresOn, tenantId);
      && r.session == s4
      && (CacheKey("RedirectTo") in s4 ==> r.result == Ok(s4[CacheKey("RedirectTo")]))
      && (CacheKey("RedirectTo") !in s4 ==> r.result == Err(MissingReturnUrl))
  {
    var found := FindOAuthStateInCache(s, order, now, state.value);
    assert found.result == Ok(true);
    assert found.session == SweepExpiredStates(s, now);
  }

  /**
    A callback whose code was redeemed and granted stores the access token
    for the configured resource (live until `SafetyMargin` before the
    provider's expiry), replaces the refresh token, stores the tenant, and
    returns the stored return address, which stays stored; nothing else
    outside the tracker changes.
   */
  lemma CallbackSuccessEffects(cfg: Config, s: Session, order: seq<string>, now: Instant, req: Request,
                               code: Option<string>, error: Option<string>, state: Option<string>,
                               accessToken: string, refreshToken: string, expiresOn: Instant, tenantId: string)
    requires ProcessAccessTokenAndGetReturnUrl(cfg, s, order, now, req, code, error, state,
                                               Granted(accessToken, refreshToken, expiresOn, tenantId)).exchange.Some?
    ensures var r := ProcessAccessTokenAndGetReturnUrl(cfg, s, order, now, req, code, error, state,
                                                       Granted(accessToken, refreshToken, expiresOn, tenantId));
      && AccessTokenKey(cfg.resourceId) in r.session && r.session[AccessTokenKey(cfg.resourceId)] == accessToken
      && (forall t :: Live(r.session, cfg.resourceId, t) <==> t <= expiresOn - SafetyMargin)
      && GetRefreshTokenFromCache(r.session) == Some(refreshToken)
      && GetFromCache(r.session, "TenantId") == Some(tenantId)
      && GetFromCache(r.session, "RedirectTo") == GetFromCache(s, "RedirectTo")
      && (CacheKey("RedirectTo") in s ==> r.result == Ok(s[CacheKey("RedirectTo")]))
      && (CacheKey("RedirectTo") !in s ==> r.result == Err(MissingReturnUrl))
      && SameOutsideTrackerExcept(s, r.session, {AccessTokenKey(cfg.resourceId), AccessTokenExpirationKey(cfg.resourceId),
                                                 RefreshTokenKey(), CacheKey("TenantId")})
  {
    GrantedCallbackSession(cfg, s, order, now, req, code, error, state, accessToken, refreshToken, expiresOn, tenantId);
    ConsumedKeepsOutside(s, order, now, state.value);
    GrantOnOutsideCopy(s, Consumed(s, order, now, state.value), cfg.resourceId, accessToken, refreshToken, expiresOn, tenantId);
  }

  /** The grant's writes seen from a session that agrees outside the tracker with the one they were applied to. */
  lemma GrantOnOutsideCopy(s: Session, s1: Session, res: string, accessToken: string, refreshToken: string,
                           expiresOn: Instant, tenantId: string)
    requires SameOutsideTracker(s, s1)
    ensures var s4 := StoreGrantedTokens(s1, res, accessToken, refreshToken, expiresOn, tenantId);
      && AccessTokenKey(res) in s4 && s4[AccessTokenKey(res)] == accessToken
      && (forall t :: Live(s4, res, t) <==> t <= expiresOn - SafetyMargin)
      && GetRefreshTokenFromCache(s4) == Some(refreshToken)
      && GetFromCache(s4, "TenantId") == Some(tenantId)
      && GetFromCache(s4, "RedirectTo") == GetFromCache(s, "RedirectTo")
      && (CacheKey("RedirectTo") in s4 <==> CacheKey("RedirectTo") in s)
      && (CacheKey("RedirectTo") in s ==> s4[CacheKey("RedirectTo")] == s[CacheKey("RedirectTo")])
      && SameOutsideTrackerExcept(s, s4, {AccessTokenKey(res), AccessTokenExpirationKey(res), RefreshTokenKey(), CacheKey("TenantId")})
  {
    var s4 := StoreGrantedTokens(s1, res, accessToken, refreshToken, expiresOn, tenantId);
    StoreGrantedTokensEffects(s1, res, accessToken, refreshToken, expiresOn, tenantId);
    var touched := {AccessTokenKey(res), AccessTokenExpirationKey(res), RefreshTokenKey(), CacheKey("TenantId")};
    forall k | !IsTrackerKey(k) && k !in touched ensures Agree(s, s4, k) {
      assert Agree(s, s1, k) && Agree(s1, s4, k);
    }
    HelperKeysAreNotTracker(res);
    NamedKeysDistinct(res);
    assert Agree(s, s4, CacheKey("RedirectTo"));
  }

  /** A callback whose redemption the provider refuses writes no token: only tracker keys change. */
  lemma RefusedCodeWritesNoTokens(cfg: Config, s: Session, order: seq<string>, now: Instant, req: Request,
                                  code: Option<string>, error: Option<string>, state: Option<string>)
    ensures var r := ProcessAccessTokenAndGetReturnUrl(cfg, s, order, now, req, code, error, state, Refused);
      && r.result.Err?
      && (r.exchange.Some? ==> r.result == Err(CodeRedemptionFailed))
      && SameOutsideTracker(s, r.session)
  {
    if Secure(req) && state.Some? {
      var found := FindOAuthStateInCache(s, order, now, state.value);
      TrackerOpsKeepOutside(s, order, now, state.value);
      TrackerOpsKeepOutside(found.session, order, now, state.value);
      var s1 := RemoveOAuthStateFromCache(found.session, order, state.value);
      forall k | !IsTrackerKey(k) ensures Agree(s, s1, k) {
        assert Agree(s, found.session, k) && Agree(found.session, s1, k);
      }
    }
  }

  /**
    The session a callback leaves is one of three: the one it was given, the
    consumed one, or the consumed one with a grant stored on it.
   */
  lemma CallbackSessionCases(cfg: Config, s: Session, order: seq<string>, now: Instant, req: Request,
                             code: Option<string>, error: Option<string>, state: Option<string>, reply: TokenReply)
    ensures var r := ProcessAccessTokenAndGetReturnUrl(cfg, s, order, now, req, code, error, state, reply);
      || r.session == s
      || (state.Some? && r.session == Consumed(s, order, now, state.value))
      || (state.Some? && reply.Granted? && r.session ==
            StoreGrantedTokens(Consumed(s, order, now, state.value), cfg.resourceId,
                       reply.accessToken, reply.refreshToken, reply.expiresOn, reply.tenantId))
  {
    if Secure(req) && state.Some? && !HasMalformedStateExpiry(s) {
      PastStateCheck(cfg, s, order, now, req, code, error, state.value, reply);
    }
  }

  /** On a well-formed session the callback leaves a well-formed session, whatever happens. */
  lemma CallbackKeepsWellFormed(cfg: Config, s: Session, order: seq<string>, now: Instant, req: Request,
                                code: Option<string>, error: Option<string>, state: Option<string>, reply: TokenReply)
    requires WellFormed(s)
    ensures WellFormed(ProcessAccessTokenAndGetReturnUrl(cfg, s, order, now, req, code, error, state, reply).session)
  {
    CallbackSessionCases(cfg, s, order, now, req, code, error, state, reply);
    if state.Some? {
      var swept := SweepExpiredStates(s, now);
      SweepKeepsExactlyUnexpired(s, now);
      SubsessionKeepsTokens(s, swept);
      var s1 := Consumed(s, order, now, state.value);
      RemovePreservesInvariants(swept, order, state.value);
      SubsessionKeepsTokens(swept, s1);
      if reply.Granted? {
        StoreGrantedTokensEffects(s1, cfg.resourceId, reply.accessToken, reply.refreshToken, reply.expiresOn, reply.tenantId);
      }
    }
  }

  /** Issuing a state keeps the session well formed. */
  lemma AuthorizationKeepsWellFormed(cfg: Config, s: Session, now: Instant, nonce: string, resourceId: string, redirectUrl: string)
    requires WellFormed(s)
    ensures WellFormed(GetAuthorizationUrl(cfg, s, now, nonce, resourceId, redirectUrl).session)
  {
    AddPreservesInvariants(s, now, nonce);
    IssueKeepsTokens(s, now, nonce);
  }

  /**
    Renewal with the refresh token leaves the tracker as it was and keeps
    the session well formed, whatever the provider answers.
   */
  lemma RenewalKeepsWellFormed(cfg: Config, s: Session, tenantId: string, resourceId: string, reply: TokenReply)
    requires WellFormed(s)
    ensures var r := GetAccessTokenFromRefreshToken(cfg, s, tenantId, resourceId, reply);
      && SameTracker(s, r.session)
      && WellFormed(r.session)
      && (UniqueStates(s) ==> UniqueStates(r.session))
  {
    var r := GetAccessTokenFromRefreshToken(cfg, s, tenantId, resourceId, reply);
    if RefreshTokenKey() in s {
      match reply
      case Refused =>
        HelperWritesKeepTracker(s, resourceId, "", 0, "TenantId", "");
        TokenWritesPreserveWellFormed(s, resourceId, "", 0);
      case Granted(accessToken, refreshToken, expiresOn, _) =>
        var s1 := SaveAccessTokenInCache(s, resourceId, accessToken, expiresOn - SafetyMargin);
        HelperWritesKeepTracker(s, resourceId, accessToken, expiresOn - SafetyMargin, "TenantId", "");
        HelperWritesKeepTracker(s1, resourceId, refreshToken, 0, "TenantId", "");
        TokenWritesPreserveWellFormed(s, resourceId, accessToken, expiresOn - SafetyMargin);
        TokenWritesPreserveWellFormed(s1, resourceId, refreshToken, 0);
        forall k | IsTrackerKey(k) ensures Agree(s, r.session, k) {
          assert Agree(s, s1, k) && Agree(s1, r.session, k);
        }
    }
    SameTrackerKeepsStates(s, r.session);
  }

  /**
    Getting a token, from the cache or by renewal, leaves the tracker as it
    was and keeps the session well formed, whatever the provider answers.
   */
  lemma AcquisitionKeepsWellFormed(cfg: Config, s: Session, now: Instant, tenantId: string, resourceId: string, reply: TokenReply)
    requires WellFormed(s)
    ensures var r := GetAccessTokenFromCacheOrRefreshToken(cfg, s, now, tenantId, resourceId, reply);
      && SameTracker(s, r.session)
      && WellFormed(r.session)
      && (UniqueStates(s) ==> UniqueStates(r.session))
  {
    var cached := GetAccessTokenFromCache(s, resourceId, now);
    var r := GetAccessTokenFromCacheOrRefreshToken(cfg, s, now, tenantId, resourceId, reply);
    WellFormedReadsNeverFail(s, resourceId, now);
    HelperWritesKeepTracker(s, resourceId, "", 0, "TenantId", "");
    TokenWritesPreserveWellFormed(s, resourceId, "", 0);
    assert cached.session == s || cached.session == RemoveAccessTokenFromCache(s, resourceId);
    SameTrackerKeepsStates(s, cached.session);
    if cached.result == Ok(None) {
      RenewalKeepsWellFormed(cfg, cached.session, tenantId, resourceId, reply);
      forall k | IsTrackerKey(k) ensures Agree(s, r.session, k) {
        assert Agree(s, cached.session, k) && Agree(cached.session, r.session, k);
      }
    }
  }

  /**
    The signed-in user's overload, including its write of the return
    address, leaves the tracker as it was and keeps the session well formed.
   */
  lemma SignedInAcquisitionKeepsWellFormed(cfg: Config, s: Session, now: Instant, tenantClaim: string,
                                           req: Request, reply: TokenReply)
    requires WellFormed(s)
    ensures var r := GetAccessTokenForSignedInUser(cfg, s, now, tenantClaim, req, reply);
      && SameTracker(s, r.session)
      && WellFormed(r.session)
      && (UniqueStates(s) ==> UniqueStates(r.session))
  {
    var inner := GetAccessTokenFromCacheOrRefreshToken(cfg, s, now, tenantClaim, cfg.resourceId, reply);
    var r := GetAccessTokenForSignedInUser(cfg, s, now, tenantClaim, req, reply);
    AcquisitionKeepsWellFormed(cfg, s, now, tenantClaim, cfg.resourceId, reply);
    HelperWritesKeepTracker(inner.session, cfg.resourceId, "", 0, "RedirectTo", req.url);
    NamedWritesKeepTokens(inner.session, "RedirectTo", req.url);
    SameTrackerKeepsStates(inner.session, r.session);
    forall k | IsTrackerKey(k) ensures Agree(s, r.session, k) {
      assert Agree(s, inner.session, k) && Agree(inner.session, r.session, k);
    }
  }

  /** A live cached token is returned as it is, with no redemption and no change to the session. */
  lemma CachedTokenServedAsIs(cfg: Config, s: Session, now: Instant, tenantId: string, resourceId: string, reply: TokenReply)
    requires Live(s, resourceId, now)
    ensures GetAccessTokenFromCacheOrRefreshToken(cfg, s, now, tenantId, resourceId, reply)
         == Reply(s, None, Ok(Some(s[AccessTokenKey(resourceId)])))
  {
  }

  /**
    Without a live token in a well-formed session, the answer is what
    renewal yields on the session with any stale token evicted.
   */
  lemma NoLiveTokenRenews(cfg: Config, s: Session, now: Instant, tenantId: string, resourceId: string, reply: TokenReply)
    requires TokensWellFormed(s) && !Live(s, resourceId, now)
    ensures GetAccessTokenFromCacheOrRefreshToken(cfg, s, now, tenantId, resourceId, reply)
         == GetAccessTokenFromRefreshToken(cfg, if AccessTokenKey(resourceId) in s then RemoveAccessTokenFromCache(s, resourceId) else s,
                                           tenantId, resourceId, reply)
  {
    WellFormedReadsNeverFail(s, resourceId, now);
  }

  /**
    The three outcomes of renewal. With no refresh token nothing happens.
    When the provider refuses, the refresh token is dropped and nothing
    else changes. When it grants, the new token is stored, live until
    `SafetyMargin` before the provider's expiry, the refresh token is
    replaced, and nothing else changes (the tenant in the answer is not
    stored).
   */
  lemma RenewalOutcomes(cfg: Config, s: Session, tenantId: string, resourceId: string, reply: TokenReply)
    ensures var r := GetAccessTokenFromRefreshToken(cfg, s, tenantId, resourceId, reply);
      && (RefreshTokenKey() !in s ==> r == Reply(s, None, Ok(None)))
      && (RefreshTokenKey() in s && reply.Refused? ==>
            && r.result == Ok(None)
            && GetRefreshTokenFromCache(r.session) == None
            && Untouched(s, r.session, {RefreshTokenKey()}))
      && (RefreshTokenKey() in s && reply.Granted? ==>
            && r.result == Ok(Some(reply.accessToken))
            && AccessTokenKey(resourceId) in r.session && r.session[AccessTokenKey(resourceId)] == reply.accessToken
            && (forall t :: Live(r.session, resourceId, t) <==> t <= reply.expiresOn - SafetyMargin)
            && GetRefreshTokenFromCache(r.session) == Some(reply.refreshToken)
            && Untouched(s, r.session, {AccessTokenKey(resourceId), AccessTokenExpirationKey(resourceId), RefreshTokenKey()}))
  {
    if RefreshTokenKey() in s && reply.Granted? {
      var s1 := SaveAccessTokenInCache(s, resourceId, reply.accessToken, reply.expiresOn - SafetyMargin);
      var s2 := SaveRefreshTokenInCache(s1, reply.refreshToken);
      TokenKeysDistinct(resourceId, resourceId);
      assert Agree(s1, s2, AccessTokenKey(resourceId)) && Agree(s1, s2, AccessTokenExpirationKey(resourceId));
      forall k | k !in {AccessTokenKey(resourceId), AccessTokenExpirationKey(resourceId), RefreshTokenKey()}
        ensures Agree(s, s2, k)
      {
        assert Agree(s, s1, k) && Agree(s1, s2, k);
      }
    }
  }

  /**
    A granted renewal is served from the cache afterwards: until
    `SafetyMargin` before the provider's expiry, asking again returns the
    renewed token without another redemption.
   */
  lemma RenewedTokenIsCached(cfg: Config, s: Session, tenantId: string, resourceId: string,
                             accessToken: string, refreshToken: string, expiresOn: Instant, tenant: string,
                             now: Instant, tenantId': string, reply': TokenReply)
    requires RefreshTokenKey() in s
    requires now <= expiresOn - SafetyMargin
    ensures var renewed := GetAccessTokenFromRefreshToken(cfg, s, tenantId, resourceId,
                                                         Granted(accessToken, refreshToken, expiresOn, tenant));
      GetAccessTokenFromCacheOrRefreshToken(cfg, renewed.session, now, tenantId', resourceId, reply')
        == Reply(renewed.session, None, Ok(Some(accessToken)))
  {
    RenewalOutcomes(cfg, s, tenantId, resourceId, Granted(accessToken, refreshToken, expiresOn, tenant));
  }

  /** Getting a token never touches the stored return address or tenant. */
  lemma AcquisitionKeepsNamedKeys(cfg: Config, s: Session, now: Instant, tenantId: string, resourceId: string, reply: TokenReply)
    ensures var r := GetAccessTokenFromCacheOrRefreshToken(cfg, s, now, tenantId, resourceId, reply);
      && Agree(s, r.session, CacheKey("RedirectTo"))
      && Agree(s, r.session, CacheKey("TenantId"))
  {
    NamedKeysDistinct(resourceId);
    RenewalOutcomes(cfg, s, tenantId, resourceId, reply);
    var cached := GetAccessTokenFromCache(s, resourceId, now);
    assert Agree(s, cached.session, CacheKey("RedirectTo")) && Agree(s, cached.session, CacheKey("TenantId"));
    RenewalOutcomes(cfg, cached.session, tenantId, resourceId, reply);
  }

  /**
    The signed-in user's overload remembers the current address under
    `RedirectTo` exactly when no token can be had; otherwise the stored
    return address is left as it was.
   */
  lemma RememberReturnOnlyWhenSignInNeeded(cfg: Config, s: Session, now: Instant, tenantClaim: string,
                                           req: Request, reply: TokenReply)
    ensures var r := GetAccessTokenForSignedInUser(cfg, s, now, tenantClaim, req, reply);
      && (r.result == Ok(None) ==> GetFromCache(r.session, "RedirectTo") == Some(req.url))
      && (r.result != Ok(None) ==> GetFromCache(r.session, "RedirectTo") == GetFromCache(s, "RedirectTo"))
  {
    AcquisitionKeepsNamedKeys(cfg, s, now, tenantClaim, cfg.resourceId, reply);
  }

  /**
    A state issued with a fresh value is accepted by a secure callback
    exactly while it is at most `StateLifetime` old: the code is redeemed
    when the provider reports no error, and a later callback is refused as
    an invalid state.
   */
  lemma IssuedStateAcceptedUntilExpiry(cfg: Config, s: Session, issued: Instant, nonce: string,
                                       resourceId: string, redirectUrl: string,
                                       order: seq<string>, now: Instant, req: Request,
                                       code: Option<string>, error: Option<string>, reply: TokenReply)
    requires WellFormed(s) && forall k :: !HoldsState(s, k, nonce)
    requires Secure(req)
    requires Enumerates(order, GetAuthorizationUrl(cfg, s, issued, nonce, resourceId, redirectUrl).session)
    ensures var s' := GetAuthorizationUrl(cfg, s, issued, nonce, resourceId, redirectUrl).session;
      var r := ProcessAccessTokenAndGetReturnUrl(cfg, s', order, now, req, code, error, Some(nonce), reply);
      && (r.exchange.Some? <==> now <= issued + StateLifetime && error.None?)
      && (now > issued + StateLifetime ==> r.result == Err(InvalidState))
  {
    FreshStateAccepted(cfg, s, issued, nonce, order, now, req, code, error, reply);
  }

  /** `IssuedStateAcceptedUntilExpiry` on the session the issue leaves. */
  lemma FreshStateAccepted(cfg: Config, s: Session, issued: Instant, nonce: string,
                           order: seq<string>, now: Instant, req: Request,
                           code: Option<string>, error: Option<string>, reply: TokenReply)
    requires StatesWellFormed(s) && forall k :: !HoldsState(s, k, nonce)
    requires Secure(req)
    requires Enumerates(order, AddOAuthStateToCache(s, issued, nonce))
    ensures var r := ProcessAccessTokenAndGetReturnUrl(cfg, AddOAuthStateToCache(s, issued, nonce), order, now, req,
                                                       code, error, Some(nonce), reply);
      && (r.exchange.Some? <==> now <= issued + StateLifetime && error.None?)
      && (now > issued + StateLifetime ==> r.result == Err(InvalidState))
  {
    var s' := AddOAuthStateToCache(s, issued, nonce);
    IssuedStateValidatesUntilExpiry(s, order, issued, now, nonce);
    var found := FindOAuthStateInCache(s', order, now, nonce);
    assert found.result == Ok(now <= issued + StateLifetime);
    PastStateCheck(cfg, s', order, now, req, code, error, nonce, reply);
  }

  /**
    After a callback that redeemed its code and was granted, a token request
    for the configured resource is served from the cache, with no further
    redemption, until `SafetyMargin` before the provider's expiry.
   */
  lemma CallbackTokenServedFromCache(cfg: Config, s: Session, order: seq<string>, now: Instant, req: Request,
                                     code: Option<string>, error: Option<string>, state: Option<string>,
                                     accessToken: string, refreshToken: string, expiresOn: Instant, tenantId: string,
                                     later: Instant, tenantId': string, reply': TokenReply)
    requires ProcessAccessTokenAndGetReturnUrl(cfg, s, order, now, req, code, error, state,
                                               Granted(accessToken, refreshToken, expiresOn, tenantId)).exchange.Some?
    requires later <= expiresOn - SafetyMargin
    ensures var r := ProcessAccessTokenAndGetReturnUrl(cfg, s, order, now, req, code, error, state,
                                                       Granted(accessToken, refreshToken, expiresOn, tenantId));
      GetAccessTokenFromCacheOrRefreshToken(cfg, r.session, later, tenantId', cfg.resourceId, reply')
        == Reply(r.session, None, Ok(Some(accessToken)))
  {
    var r := ProcessAccessTokenAndGetReturnUrl(cfg, s, order, now, req, code, error, state,
                                               Granted(accessToken, refreshToken, expiresOn, tenantId));
    CallbackSuccessEffects(cfg, s, order, now, req, code, error, state, accessToken, refreshToken, expiresOn, tenantId);
    assert Live(r.session, cfg.resourceId, later);
    CachedTokenServedAsIs(cfg, r.session, later, tenantId', cfg.resourceId, reply');
  }

  /**
    With no live token and no refresh token, a well-formed session yields no
    token and the identity provider is not asked.
   */
  lemma NothingToRenewWith(cfg: Config, s: Session, now: Instant, tenantId: string, resourceId: string, reply: TokenReply)
    requires TokensWellFormed(s) && !Live(s, resourceId, now) && RefreshTokenKey() !in s
    ensures var r := GetAccessTokenFromCacheOrRefreshToken(cfg, s, now, tenantId, resourceId, reply);
      r.result == Ok(None) && r.exchange.None?
  {
    NoLiveTokenRenews(cfg, s, now, tenantId, resourceId, reply);
    TokenKeysDistinct(resourceId, resourceId);
  }
}
