/**
  The token store: one access token per resource, each kept under two
  session keys (the token and its expiry), and a single refresh-token slot.
 */
module TokenStore {
  import opened Optional
  import opened Text
  import opened Clock
  import opened SessionCache
  import opened Outcomes

  /** Where the access token for `resourceId` is kept. */
  function AccessTokenKey(resourceId: string): string {
    CacheKey("AccessToken#" + resourceId)
  }

  /** Where the expiry of the access token for `resourceId` is kept. */
  function AccessTokenExpirationKey(resourceId: string): string {
    CacheKey("AccessTokenExpiration#" + resourceId)
  }

  /** The one refresh-token slot of a session. */
  function RefreshTokenKey(): string {
    CacheKey("RefreshToken")
  }

  /** All expiry keys of access tokens share this beginning. */
  function AccessTokenExpirationPrefix(): string {
    CacheKey("AccessTokenExpiration#")
  }

  /**
    The first position where the names of a token key and an expiry key
    differ: right after `AccessToken`, where a token key has `#` and an
    expiry key has `E`.
   */
  const TokenFork: nat := |"AccessToken"|

  /** Two session keys built from different names are different keys. */
  lemma CacheKeyInjective(a: string, b: string)
    requires a != b
    ensures CacheKey(a) != CacheKey(b)
  {
    assert CacheKey(a)[|CachePrefix|..] != CacheKey(b)[|CachePrefix|..];
  }

  /**
    The token store's keys never collide: a token key is never an expiry key
    or the refresh slot, and different resources get different keys.
   */
  lemma TokenKeysDistinct(r: string, r': string)
    ensures AccessTokenKey(r) != AccessTokenExpirationKey(r')
    ensures AccessTokenKey(r) != RefreshTokenKey()
    ensures AccessTokenExpirationKey(r) != RefreshTokenKey()
    ensures r != r' ==> AccessTokenKey(r) != AccessTokenKey(r')
    ensures r != r' ==> AccessTokenExpirationKey(r) != AccessTokenExpirationKey(r')
  {
    var a := "AccessToken#" + r;
    var e := "AccessTokenExpiration#" + r';
    assert a[TokenFork] != e[TokenFork];
    CacheKeyInjective(a, e);
    assert a[0] != "RefreshToken"[0];
    CacheKeyInjective(a, "RefreshToken");
    assert ("AccessTokenExpiration#" + r)[0] != "RefreshToken"[0];
    CacheKeyInjective("AccessTokenExpiration#" + r, "RefreshToken");
    if r != r' {
      assert ("AccessToken#" + r)[|"AccessToken#"|..] != ("AccessToken#" + r')[|"AccessToken#"|..];
      CacheKeyInjective("AccessToken#" + r, "AccessToken#" + r');
      assert ("AccessTokenExpiration#" + r)[|"AccessTokenExpiration#"|..] != ("AccessTokenExpiration#" + r')[|"AccessTokenExpiration#"|..];
      CacheKeyInjective("AccessTokenExpiration#" + r, "AccessTokenExpiration#" + r');
    }
  }

  /** Every expiry key of an access token lies under the common expiry prefix. */
  lemma ExpirationKeyHasPrefix(r: string)
    ensures StartsWith(AccessTokenExpirationKey(r), AccessTokenExpirationPrefix())
  {
    var k := AccessTokenExpirationKey(r);
    var p := AccessTokenExpirationPrefix();
    assert k == p + r;
    StartsWithAppend(p, r);
  }

  /** Neither a token key nor the refresh slot lies under the expiry prefix. */
  lemma OnlyExpiriesUnderExpirationPrefix(r: string)
    ensures !StartsWith(AccessTokenKey(r), AccessTokenExpirationPrefix())
    ensures !StartsWith(RefreshTokenKey(), AccessTokenExpirationPrefix())
  {
    var p := AccessTokenExpirationPrefix();
    assert AccessTokenKey(r)[|CachePrefix| + TokenFork] == '#' != p[|CachePrefix| + TokenFork];
    DisagreeAt(AccessTokenKey(r), p, |CachePrefix| + TokenFork);
    assert RefreshTokenKey()[|CachePrefix|] == 'R' != p[|CachePrefix|];
    DisagreeAt(RefreshTokenKey(), p, |CachePrefix|);
  }

  /** Every stored access-token expiry reads as an instant. */
  ghost predicate TokensWellFormed(s: Session) {
    forall k :: k in s && StartsWith(k, AccessTokenExpirationPrefix()) ==> Parse(s[k]).Some?
  }

  /** The cached token for `r` is present and its expiry has not passed at `now`. */
  predicate Live(s: Session, r: string, now: Instant) {
    && AccessTokenKey(r) in s
    && AccessTokenExpirationKey(r) in s
    && match Parse(s[AccessTokenExpirationKey(r)])
       case Some(e) => now <= e
       case None => false
  }

  /**
    The cached token for `r` is present but is to be evicted at `now`: its
    expiry has passed, or there is no expiry at all (an absent expiry reads
    as the earliest date).
   */
  predicate Stale(s: Session, r: string, now: Instant) {
    && AccessTokenKey(r) in s
    && (|| AccessTokenExpirationKey(r) !in s
        || match Parse(s[AccessTokenExpirationKey(r)])
           case Some(e) => e < now
           case None => false)
  }

  /** Stores `token` for `resourceId`, expiring at `expiration`, over any previous one. */
  function SaveAccessTokenInCache(s: Session, resourceId: string, token: string, expiration: Instant): (s': Session)
    ensures AccessTokenKey(resourceId) in s' && s'[AccessTokenKey(resourceId)] == token
    ensures AccessTokenExpirationKey(resourceId) in s'
    ensures Parse(s'[AccessTokenExpirationKey(resourceId)]) == Some(expiration)
    ensures Untouched(s, s', {AccessTokenKey(resourceId), AccessTokenExpirationKey(resourceId)})
  {
    ParseRender(expiration);
    TokenKeysDistinct(resourceId, resourceId);
    s[AccessTokenKey(resourceId) := token][AccessTokenExpirationKey(resourceId) := Render(expiration)]
  }

  /** Drops the token for `resourceId` and its expiry. */
  function RemoveAccessTokenFromCache(s: Session, resourceId: string): (s': Session)
    ensures AccessTokenKey(resourceId) !in s' && AccessTokenExpirationKey(resourceId) !in s'
    ensures Untouched(s, s', {AccessTokenKey(resourceId), AccessTokenExpirationKey(resourceId)})
  {
    s - {AccessTokenKey(resourceId), AccessTokenExpirationKey(resourceId)}
  }

  /**
    The cached access token for `resourceId` at `now`. A token whose expiry
    is strictly before `now` (or missing) is evicted together with its
    expiry and reported absent; an expiry that is not a date raises.
   */
  function GetAccessTokenFromCache(s: Session, resourceId: string, now: Instant): (o: Outcome<Option<string>>)
    ensures o.result.Ok? || o.result == Err(MalformedExpiry)
    ensures o.result.Ok? && o.result.value.Some? <==> Live(s, resourceId, now)
    ensures Live(s, resourceId, now) ==> o.session == s && o.result.value.value == s[AccessTokenKey(resourceId)]
    ensures Stale(s, resourceId, now) <==> o.result == Ok(None) && AccessTokenKey(resourceId) in s
    ensures Stale(s, resourceId, now) ==> o.session == s - {AccessTokenKey(resourceId), AccessTokenExpirationKey(resourceId)}
    ensures AccessTokenKey(resourceId) !in s ==> o == Outcome(s, Ok(None))
    ensures o.result.Err? ==> o.session == s
  {
    var tokenKey := AccessTokenKey(resourceId);
    var expirationKey := AccessTokenExpirationKey(resourceId);
    if tokenKey !in s then
      Outcome(s, Ok(None))
    else if expirationKey !in s then
      Outcome(RemoveAccessTokenFromCache(s, resourceId), Ok(None))
    else
      match Parse(s[expirationKey])
      case None => Outcome(s, Err(MalformedExpiry))
      case Some(expiration) =>
        if expiration < now then Outcome(RemoveAccessTokenFromCache(s, resourceId), Ok(None))
        else Outcome(s, Ok(Some(s[tokenKey])))
  }

  /** Stores the session's refresh token, replacing the previous one. */
  function SaveRefreshTokenInCache(s: Session, token: string): (s': Session)
    ensures GetRefreshTokenFromCache(s') == Some(token)
    ensures Untouched(s, s', {RefreshTokenKey()})
  {
    s[RefreshTokenKey() := token]
  }

  /** The session's refresh token, if one is stored. */
  function GetRefreshTokenFromCache(s: Session): (r: Option<string>)
    ensures r.Some? <==> RefreshTokenKey() in s
    ensures r.Some? ==> r.value == s[RefreshTokenKey()]
  {
    GetFromCache(s, "RefreshToken")
  }

  /** Drops the session's refresh token. */
  function RemoveRefreshTokenFromCache(s: Session): (s': Session)
    ensures GetRefreshTokenFromCache(s') == None
    ensures Untouched(s, s', {RefreshTokenKey()})
  {
    RemoveFromCache(s, "RefreshToken")
  }

  /**
    The store's round trip. A token saved with expiry `e` reads back
    unchanged, and without touching the session, at any `now <= e`; read at
    `now > e` it is absent, and exactly its two keys have gone.
   */
  lemma SaveThenRead(s: Session, r: string, token: string, e: Instant, now: Instant)
    ensures var o := GetAccessTokenFromCache(SaveAccessTokenInCache(s, r, token, e), r, now);
      if now <= e then o == Outcome(SaveAccessTokenInCache(s, r, token, e), Ok(Some(token)))
      else o.result == Ok(None) && o.session == s - {AccessTokenKey(r), AccessTokenExpirationKey(r)}
  {
    var s1 := SaveAccessTokenInCache(s, r, token, e);
    var doomed := {AccessTokenKey(r), AccessTokenExpirationKey(r)};
    if now > e {
      assert Stale(s1, r, now);
      forall k ensures Agree(s1 - doomed, s - doomed, k) {
        if k !in doomed {
          assert Agree(s, s1, k);
        }
      }
      assert (s1 - doomed).Keys == (s - doomed).Keys;
    }
  }

  /** Saving a token for one resource leaves every other resource's reads as they were. */
  lemma SaveLeavesOtherResources(s: Session, r: string, r': string, token: string, e: Instant, now: Instant)
    requires r != r'
    ensures GetAccessTokenFromCache(SaveAccessTokenInCache(s, r, token, e), r', now).result
         == GetAccessTokenFromCache(s, r', now).result
  {
    var s1 := SaveAccessTokenInCache(s, r, token, e);
    TokenKeysDistinct(r, r');
    TokenKeysDistinct(r', r);
    assert Agree(s, s1, AccessTokenKey(r'));
    assert Agree(s, s1, AccessTokenExpirationKey(r'));
  }

  /** In a well-formed session, reading a cached token never raises. */
  lemma WellFormedReadsNeverFail(s: Session, r: string, now: Instant)
    requires TokensWellFormed(s)
    ensures GetAccessTokenFromCache(s, r, now).result.Ok?
  {
    ExpirationKeyHasPrefix(r);
  }

  /** Saving and removing tokens keep the session well formed. */
  lemma TokenWritesPreserveWellFormed(s: Session, r: string, token: string, e: Instant)
    requires TokensWellFormed(s)
    ensures TokensWellFormed(SaveAccessTokenInCache(s, r, token, e))
    ensures TokensWellFormed(RemoveAccessTokenFromCache(s, r))
    ensures TokensWellFormed(SaveRefreshTokenInCache(s, token))
    ensures TokensWellFormed(RemoveRefreshTokenFromCache(s))
  {
    OnlyExpiriesUnderExpirationPrefix(r);
    var s1 := SaveAccessTokenInCache(s, r, token, e);
    forall k | k in s1 && StartsWith(k, AccessTokenExpirationPrefix())
      ensures Parse(s1[k]).Some?
    {
      if k != AccessTokenKey(r) && k != AccessTokenExpirationKey(r) {
        assert Agree(s, s1, k);
      }
    }
    var s2 := SaveRefreshTokenInCache(s, token);
    forall k | k in s2 && StartsWith(k, AccessTokenExpirationPrefix())
      ensures Parse(s2[k]).Some?
    {
      if k != RefreshTokenKey() {
        assert Agree(s, s2, k);
      }
    }
    var s3 := RemoveRefreshTokenFromCache(s);
    forall k | k in s3 ensures Agree(s, s3, k) {
      if k != RefreshTokenKey() {
        assert Agree(s, s3, k);
      }
    }
  }
}
