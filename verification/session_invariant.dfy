/**
  How the helper's key families stay apart in one session, and the
  well-formedness that the flow's operations and the clearing of the
  namespace keep: tracker keys come in complete pairs, and every stored
  access-token expiry reads as an instant. The generic cache writes keep
  it only for names outside the tracker and token families.
 */
module SessionInvariant {
  import opened Text
  import opened Clock
  import opened SessionCache
  import opened TokenStore
  import opened StateTracker

  /** A key of the state tracker: a state key or a state expiration key. */
  predicate IsTrackerKey(k: string) {
    IsStateKey(k) || IsStateExpirationKey(k)
  }

  /** The shape the helper keeps the session in. */
  ghost predicate WellFormed(s: Session) {
    StatesWellFormed(s) && TokensWellFormed(s)
  }

  /** `s` and `s'` agree on every tracker key. */
  ghost predicate SameTracker(s: Session, s': Session) {
    forall k {:trigger Agree(s, s', k)} :: IsTrackerKey(k) ==> Agree(s, s', k)
  }

  /** `s` and `s'` agree on every key outside the tracker. */
  ghost predicate SameOutsideTracker(s: Session, s': Session) {
    forall k {:trigger Agree(s, s', k)} :: !IsTrackerKey(k) ==> Agree(s, s', k)
  }

  /** `s` and `s'` agree on every key outside the tracker and outside `touched`. */
  ghost predicate SameOutsideTrackerExcept(s: Session, s': Session, touched: set<string>) {
    forall k {:trigger Agree(s, s', k)} :: !IsTrackerKey(k) && k !in touched ==> Agree(s, s', k)
  }

  /** Every tracker key carries `O` right after the namespace prefix. */
  lemma TrackerKeyMark(k: string)
    requires IsTrackerKey(k)
    ensures |k| > |CachePrefix| && k[|CachePrefix|] == 'O'
  {
    assert StatePrefix()[|CachePrefix|] == 'O' && StateExpirationPrefix()[|CachePrefix|] == 'O';
    if IsStateKey(k) {
      assert k[..|StatePrefix()|][|CachePrefix|] == 'O';
    } else {
      assert k[..|StateExpirationPrefix()|][|CachePrefix|] == 'O';
    }
  }

  /** A helper name that does not begin with `O` never names a tracker key. */
  lemma NamedKeyIsNotTracker(name: string)
    requires |name| > 0 && name[0] != 'O'
    ensures !IsTrackerKey(CacheKey(name))
  {
    var k := CacheKey(name);
    assert k[|CachePrefix|] == name[0];
    DisagreeAt(k, StatePrefix(), |CachePrefix|);
    DisagreeAt(k, StateExpirationPrefix(), |CachePrefix|);
  }

  /** No key of the token store, and neither `TenantId` nor `RedirectTo`, is a tracker key. */
  lemma HelperKeysAreNotTracker(r: string)
    ensures !IsTrackerKey(AccessTokenKey(r)) && !IsTrackerKey(AccessTokenExpirationKey(r))
    ensures !IsTrackerKey(RefreshTokenKey())
    ensures !IsTrackerKey(CacheKey("TenantId")) && !IsTrackerKey(CacheKey("RedirectTo"))
  {
    NamedKeyIsNotTracker("AccessToken#" + r);
    NamedKeyIsNotTracker("AccessTokenExpiration#" + r);
    NamedKeyIsNotTracker("RefreshToken");
    NamedKeyIsNotTracker("TenantId");
    NamedKeyIsNotTracker("RedirectTo");
  }

  /** A tracker key never lies under the access-token expiry prefix. */
  lemma TrackerKeyIsNotTokenExpiry(k: string)
    requires IsTrackerKey(k)
    ensures !StartsWith(k, AccessTokenExpirationPrefix())
  {
    TrackerKeyMark(k);
    assert AccessTokenExpirationPrefix()[|CachePrefix|] == 'A';
    DisagreeAt(k, AccessTokenExpirationPrefix(), |CachePrefix|);
  }

  /** Neither `TenantId` nor `RedirectTo` lies under the access-token expiry prefix. */
  lemma NamedKeysAreNotTokenExpiries()
    ensures !StartsWith(CacheKey("TenantId"), AccessTokenExpirationPrefix())
    ensures !StartsWith(CacheKey("RedirectTo"), AccessTokenExpirationPrefix())
  {
    assert AccessTokenExpirationPrefix()[|CachePrefix|] == 'A';
    assert CacheKey("TenantId")[|CachePrefix|] == 'T';
    assert CacheKey("RedirectTo")[|CachePrefix|] == 'R';
    DisagreeAt(CacheKey("TenantId"), AccessTokenExpirationPrefix(), |CachePrefix|);
    DisagreeAt(CacheKey("RedirectTo"), AccessTokenExpirationPrefix(), |CachePrefix|);
  }

  /** The helper's plain names and the token store's keys are all different keys. */
  lemma NamedKeysDistinct(r: string)
    ensures CacheKey("TenantId") != CacheKey("RedirectTo")
    ensures CacheKey("TenantId") != AccessTokenKey(r) && CacheKey("TenantId") != AccessTokenExpirationKey(r)
    ensures CacheKey("RedirectTo") != AccessTokenKey(r) && CacheKey("RedirectTo") != AccessTokenExpirationKey(r)
    ensures CacheKey("TenantId") != RefreshTokenKey() && CacheKey("RedirectTo") != RefreshTokenKey()
  {
    assert "TenantId"[0] != "RedirectTo"[0];
    CacheKeyInjective("TenantId", "RedirectTo");
    CacheKeyInjective("TenantId", "AccessToken#" + r);
    CacheKeyInjective("TenantId", "AccessTokenExpiration#" + r);
    CacheKeyInjective("TenantId", "RefreshToken");
    CacheKeyInjective("RedirectTo", "AccessToken#" + r);
    CacheKeyInjective("RedirectTo", "AccessTokenExpiration#" + r);
    assert "RedirectTo"[2] != "RefreshToken"[2];
    CacheKeyInjective("RedirectTo", "RefreshToken");
  }

  /** A session that agrees on the tracker keys has the same state holders and shape. */
  lemma SameTrackerKeepsStates(s: Session, s': Session)
    requires SameTracker(s, s')
    ensures StatesWellFormed(s) ==> StatesWellFormed(s')
    ensures UniqueStates(s) ==> UniqueStates(s')
    ensures forall k, v :: HoldsState(s', k, v) <==> HoldsState(s, k, v)
  {
    forall k, v ensures HoldsState(s', k, v) <==> HoldsState(s, k, v) {
      if IsStateKey(k) {
        assert Agree(s, s', k);
      }
    }
    if StatesWellFormed(s) {
      forall k | k in s' && (IsStateKey(k) || IsStateExpirationKey(k)) ensures PairedAt(s', k) {
        assert Agree(s, s', k);
        assert PairedAt(s, k);
        var t := StampOf(k);
        StateKeyShape(t);
        assert Agree(s, s', StateKey(t));
        assert Agree(s, s', StateExpirationKey(t));
      }
    }
    if UniqueStates(s) {
      forall k, k' | k in s' && k' in s' && IsStateKey(k) && IsStateKey(k') && s'[k] == s'[k']
        ensures k == k'
      {
        assert Agree(s, s', k) && Agree(s, s', k');
      }
    }
  }

  /** Taking entries away keeps every access-token expiry readable. */
  lemma SubsessionKeepsTokens(s: Session, s': Session)
    requires TokensWellFormed(s)
    requires s'.Keys <= s.Keys && forall k :: k in s' ==> s'[k] == s[k]
    ensures TokensWellFormed(s')
  {
  }

  /** Taking entries away keeps state values unique. */
  lemma SubsessionKeepsUnique(s: Session, s': Session)
    requires UniqueStates(s)
    requires s'.Keys <= s.Keys && forall k :: k in s' ==> s'[k] == s[k]
    ensures UniqueStates(s')
  {
  }

  /** The writes of the token store and of the helper's own names leave the tracker alone. */
  lemma HelperWritesKeepTracker(s: Session, r: string, token: string, e: Instant, name: string, value: string)
    requires name == "TenantId" || name == "RedirectTo"
    ensures SameTracker(s, SaveAccessTokenInCache(s, r, token, e))
    ensures SameTracker(s, RemoveAccessTokenFromCache(s, r))
    ensures SameTracker(s, SaveRefreshTokenInCache(s, token))
    ensures SameTracker(s, RemoveRefreshTokenFromCache(s))
    ensures SameTracker(s, SaveInCache(s, name, value))
  {
    HelperKeysAreNotTracker(r);
    var s1 := SaveAccessTokenInCache(s, r, token, e);
    forall k | IsTrackerKey(k) ensures Agree(s, s1, k) {
      assert k != AccessTokenKey(r) && k != AccessTokenExpirationKey(r);
    }
    var s2 := RemoveAccessTokenFromCache(s, r);
    forall k | IsTrackerKey(k) ensures Agree(s, s2, k) {
      assert k != AccessTokenKey(r) && k != AccessTokenExpirationKey(r);
    }
    var s3 := SaveRefreshTokenInCache(s, token);
    forall k | IsTrackerKey(k) ensures Agree(s, s3, k) {
      assert k != RefreshTokenKey();
    }
    var s4 := RemoveRefreshTokenFromCache(s);
    forall k | IsTrackerKey(k) ensures Agree(s, s4, k) {
      assert k != RefreshTokenKey();
    }
    var s5 := SaveInCache(s, name, value);
    forall k | IsTrackerKey(k) ensures Agree(s, s5, k) {
      assert k != CacheKey(name);
    }
  }

  /** Writing `TenantId` or `RedirectTo` keeps every access-token expiry readable. */
  lemma NamedWritesKeepTokens(s: Session, name: string, value: string)
    requires TokensWellFormed(s)
    requires name == "TenantId" || name == "RedirectTo"
    ensures TokensWellFormed(SaveInCache(s, name, value))
  {
    NamedKeysAreNotTokenExpiries();
    var s' := SaveInCache(s, name, value);
    forall k | k in s' && StartsWith(k, AccessTokenExpirationPrefix()) ensures Parse(s'[k]).Some? {
      assert k != CacheKey(name);
      assert Agree(s, s', k);
    }
  }

  /** Issuing a state keeps every access-token expiry readable. */
  lemma IssueKeepsTokens(s: Session, now: Instant, nonce: string)
    requires TokensWellFormed(s)
    ensures TokensWellFormed(AddOAuthStateToCache(s, now, nonce))
  {
    var s' := AddOAuthStateToCache(s, now, nonce);
    var stamp := Render(now);
    StateKeyShape(stamp);
    TrackerKeyIsNotTokenExpiry(StateKey(stamp));
    TrackerKeyIsNotTokenExpiry(StateExpirationKey(stamp));
    forall k | k in s' && StartsWith(k, AccessTokenExpirationPrefix()) ensures Parse(s'[k]).Some? {
      assert k != StateKey(stamp) && k != StateExpirationKey(stamp);
      assert Agree(s, s', k);
    }
  }

  /** The tracker's own writes leave every key outside the tracker alone. */
  lemma TrackerOpsKeepOutside(s: Session, order: seq<string>, now: Instant, v: string)
    ensures SameOutsideTracker(s, AddOAuthStateToCache(s, now, v))
    ensures SameOutsideTracker(s, SweepExpiredStates(s, now))
    ensures SameOutsideTracker(s, RemoveOAuthStateFromCache(s, order, v))
  {
    var stamp := Render(now);
    StateKeyShape(stamp);
    var s1 := AddOAuthStateToCache(s, now, v);
    forall k | !IsTrackerKey(k) ensures Agree(s, s1, k) {
      assert k != StateKey(stamp) && k != StateExpirationKey(stamp);
    }
  }

  /** Sweeping and removing the state change only tracker keys. */
  lemma ConsumedKeepsOutside(s: Session, order: seq<string>, now: Instant, state: string)
    ensures SameOutsideTracker(s, Consumed(s, order, now, state))
  {
    var swept := SweepExpiredStates(s, now);
    var s1 := Consumed(s, order, now, state);
    TrackerOpsKeepOutside(s, order, now, state);
    TrackerOpsKeepOutside(swept, order, now, state);
    forall k | !IsTrackerKey(k) ensures Agree(s, s1, k) {
      assert Agree(s, swept, k) && Agree(swept, s1, k);
    }
  }

  /**
    Clearing the helper's namespace leaves a well-formed session with no
    state in it, whatever the session held before.
   */
  lemma ClearingLeavesWellFormed(s: Session)
    ensures WellFormed(RemoveAllFromCache(s)) && UniqueStates(RemoveAllFromCache(s))
    ensures forall k, v :: !HoldsState(RemoveAllFromCache(s), k, v)
  {
    var c := RemoveAllFromCache(s);
    forall k | k in c ensures !IsTrackerKey(k) && !StartsWith(k, AccessTokenExpirationPrefix()) {
      if IsTrackerKey(k) {
        PrefixOfPrefix(k, if IsStateKey(k) then StatePrefix() else StateExpirationPrefix(), CachePrefix);
      }
      if StartsWith(k, AccessTokenExpirationPrefix()) {
        PrefixOfPrefix(k, AccessTokenExpirationPrefix(), CachePrefix);
      }
    }
  }
}
