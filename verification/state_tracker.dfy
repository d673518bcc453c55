/**
  The anti-forgery `state` tracker. Each issued value is kept under a key
  built from the instant it was issued, next to an expiry ten minutes later
  under the matching expiration key. Lookup first sweeps out expired pairs
  and then scans the remaining state keys; removal drops the pair of the
  first state key, in the store's enumeration order, that holds the value.
 */
module StateTracker {
  import opened Optional
  import opened Text
  import opened Clock
  import opened SessionCache
  import opened Outcomes

  /** How long an issued state value stays valid. */
  const StateLifetime: int := 10 * Minute

  function StatePrefix(): string {
    CacheKey("OAuthState#")
  }

  function StateExpirationPrefix(): string {
    CacheKey("OAuthStateExpiration#")
  }

  /** Where the state issued at the instant with text `stamp` is kept. */
  function StateKey(stamp: string): string {
    StatePrefix() + stamp
  }

  /** Where the expiry of the state issued at `stamp` is kept. */
  function StateExpirationKey(stamp: string): string {
    StateExpirationPrefix() + stamp
  }

  predicate IsStateKey(k: string) {
    StartsWith(k, StatePrefix())
  }

  predicate IsStateExpirationKey(k: string) {
    StartsWith(k, StateExpirationPrefix())
  }

  /** The issue stamp recovered from a key: the text after its last `#`. */
  function StampOf(k: string): string {
    AfterLast(k, '#')
  }

  /** The key `k` holds the state value `v`. */
  predicate HoldsState(s: Session, k: string, v: string) {
    k in s && IsStateKey(k) && s[k] == v
  }

  /** Stored expiry text that reads as an instant strictly before `now`. */
  predicate ExpiredAt(text: string, now: Instant) {
    match Parse(text)
    case Some(e) => e < now
    case None => false
  }

  /** The store's enumeration `order` reaches every key of `s`. */
  ghost predicate Enumerates(order: seq<string>, s: Session) {
    forall k :: k in s ==> k in order
  }

  /**
    The pair of the stamp of tracker key `k` is complete: `k` is the state
    key or the expiration key of its own stamp, both keys of that stamp are
    present, and the expiry reads as an instant.
   */
  predicate PairedAt(s: Session, k: string) {
    var t := StampOf(k);
    && (k == StateKey(t) || k == StateExpirationKey(t))
    && StateKey(t) in s
    && StateExpirationKey(t) in s
    && Parse(s[StateExpirationKey(t)]).Some?
  }

  /**
    The shape the tracker keeps its keys in: every state key and every
    expiration key belongs to a complete pair under a `#`-free stamp.
   */
  ghost predicate StatesWellFormed(s: Session) {
    && (forall k {:trigger PairedAt(s, k)} :: k in s && IsStateKey(k) ==> PairedAt(s, k))
    && (forall k {:trigger PairedAt(s, k)} :: k in s && IsStateExpirationKey(k) ==> PairedAt(s, k))
  }

  /** No two state keys hold the same value (issued values are fresh). */
  ghost predicate UniqueStates(s: Session) {
    forall k, k' :: k in s && k' in s && IsStateKey(k) && IsStateKey(k') && s[k] == s[k'] ==> k == k'
  }

  /**
    The first position where the two tracker prefixes differ: right after
    `OAuthState`, where a state key has `#` and an expiration key has `E`.
   */
  const StateFork: nat := |CachePrefix| + |"OAuthState"|

  /** The facts about key shapes every proof below leans on. */
  lemma StateKeyShape(stamp: string)
    ensures IsStateKey(StateKey(stamp)) && !IsStateExpirationKey(StateKey(stamp))
    ensures IsStateExpirationKey(StateExpirationKey(stamp)) && !IsStateKey(StateExpirationKey(stamp))
    ensures StateKey(stamp)[|StatePrefix()|..] == stamp
    ensures StateExpirationKey(stamp)[|StateExpirationPrefix()|..] == stamp
    ensures '#' !in stamp ==> StampOf(StateKey(stamp)) == stamp && StampOf(StateExpirationKey(stamp)) == stamp
  {
    var p := StatePrefix();
    var q := StateExpirationPrefix();
    StartsWithAppend(p, stamp);
    StartsWithAppend(q, stamp);
    assert StateKey(stamp)[StateFork] == '#' != q[StateFork];
    DisagreeAt(StateKey(stamp), q, StateFork);
    assert StateExpirationKey(stamp)[StateFork] == 'E' != p[StateFork];
    DisagreeAt(StateExpirationKey(stamp), p, StateFork);
    if '#' !in stamp {
      AfterLastOfSeparated(p, stamp, '#');
      AfterLastOfSeparated(q, stamp, '#');
    }
  }

  /** A state key is never an expiration key. */
  lemma StateKeyClassesDisjoint(k: string)
    ensures !(IsStateKey(k) && IsStateExpirationKey(k))
  {
    if IsStateKey(k) {
      assert k[StateFork] == StatePrefix()[StateFork] == '#' != StateExpirationPrefix()[StateFork];
      DisagreeAt(k, StateExpirationPrefix(), StateFork);
    }
  }

  /** In a well-formed session a tracker key is the key of its own stamp. */
  lemma StampOfWellFormedKey(s: Session, k: string)
    requires StatesWellFormed(s) && k in s
    ensures IsStateKey(k) ==> k == StateKey(StampOf(k)) && PairedAt(s, k)
    ensures IsStateExpirationKey(k) ==> k == StateExpirationKey(StampOf(k)) && PairedAt(s, k)
  {
    StateKeyShape(StampOf(k));
    if IsStateKey(k) {
      assert PairedAt(s, k);
    }
    if IsStateExpirationKey(k) {
      assert PairedAt(s, k);
    }
  }

  /**
    Records `nonce` as issued at `now`: the value under the state key for
    `now`, and `now + StateLifetime` under its expiration key. A value
    issued earlier at the same instant is overwritten.
   */
  function AddOAuthStateToCache(s: Session, now: Instant, nonce: string): (s': Session)
    ensures StateKey(Render(now)) in s' && s'[StateKey(Render(now))] == nonce
    ensures StateExpirationKey(Render(now)) in s'
    ensures Parse(s'[StateExpirationKey(Render(now))]) == Some(now + StateLifetime)
    ensures Untouched(s, s', {StateKey(Render(now)), StateExpirationKey(Render(now))})
  {
    var stamp := Render(now);
    var expiry := Render(now + StateLifetime);
    WritePair(s, stamp, nonce, expiry);
    ParseRender(now + StateLifetime);
    WithPair(s, stamp, nonce, expiry)
  }

  /** `s` with `value` under the state key of `stamp` and `expiry` under its expiration key. */
  function WithPair(s: Session, stamp: string, value: string, expiry: string): Session {
    s[StateKey(stamp) := value][StateExpirationKey(stamp) := expiry]
  }

  /** Writing a pair sets its two keys and nothing else. */
  lemma WritePair(s: Session, stamp: string, value: string, expiry: string)
    ensures var s' := WithPair(s, stamp, value, expiry);
      && StateKey(stamp) in s' && s'[StateKey(stamp)] == value
      && StateExpirationKey(stamp) in s' && s'[StateExpirationKey(stamp)] == expiry
      && Untouched(s, s', {StateKey(stamp), StateExpirationKey(stamp)})
  {
    StateKeyShape(stamp);
  }

  /** Some expiration key holds text that is not a date. */
  predicate HasMalformedStateExpiry(s: Session) {
    exists k | k in s :: IsStateExpirationKey(k) && Parse(s[k]).None?
  }

  /** The stamps of all expiration keys whose expiry is before `now`. */
  function ExpiredStamps(s: Session, now: Instant): set<string> {
    set k | k in s && IsStateExpirationKey(k) && ExpiredAt(s[k], now) :: StampOf(k)
  }

  /** The state and expiration keys of the given stamps. */
  function PairKeys(stamps: set<string>): (keys: set<string>)
    ensures forall k :: k in keys ==> IsStateKey(k) || IsStateExpirationKey(k)
  {
    forall t | t in stamps ensures IsStateKey(StateKey(t)) && IsStateExpirationKey(StateExpirationKey(t)) {
      StateKeyShape(t);
    }
    (set t | t in stamps :: StateKey(t)) + (set t | t in stamps :: StateExpirationKey(t))
  }

  /**
    The first pass of the lookup: for every expiration key whose expiry has
    passed, the state key and expiration key of its stamp are removed.
    Nothing else is touched.
   */
  function SweepExpiredStates(s: Session, now: Instant): (s': Session)
    ensures s'.Keys <= s.Keys && forall k :: k in s' ==> s'[k] == s[k]
    ensures forall k :: k in s && !IsStateKey(k) && !IsStateExpirationKey(k) ==> k in s'
  {
    s - PairKeys(ExpiredStamps(s, now))
  }

  /**
    The index of the first key from position `i` of the enumeration `order`
    that is a state key holding `v`, if any.
   */
  function FirstStateHolding(order: seq<string>, s: Session, v: string, i: nat): (r: Option<nat>)
    requires i <= |order|
    ensures r.None? <==> forall j :: i <= j < |order| ==> !HoldsState(s, order[j], v)
    ensures r.Some? ==> i <= r.value < |order| && HoldsState(s, order[r.value], v)
    ensures r.Some? ==> forall j :: i <= j < r.value ==> !HoldsState(s, order[j], v)
    decreases |order| - i
  {
    if i == |order| then None
    else if HoldsState(s, order[i], v) then Some(i)
    else FirstStateHolding(order, s, v, i + 1)
  }

  /**
    Whether `state` is an outstanding value at `now`: expired pairs are swept
    out first (and stay out), then the remaining state keys are scanned in
    enumeration order. An expiry that is not a date raises before anything
    is removed.
   */
  function FindOAuthStateInCache(s: Session, order: seq<string>, now: Instant, state: string): (o: Outcome<bool>)
    ensures o.result.Err? <==> HasMalformedStateExpiry(s)
    ensures o.result.Err? ==> o == Outcome(s, Err(MalformedExpiry))
    ensures o.result.Ok? ==> o.session == SweepExpiredStates(s, now)
    ensures o.result.Ok? ==>
      (o.result.value <==> exists j :: 0 <= j < |order| && HoldsState(o.session, order[j], state))
  {
    if HasMalformedStateExpiry(s) then Outcome(s, Err(MalformedExpiry))
    else
      var swept := SweepExpiredStates(s, now);
      Outcome(swept, Ok(FirstStateHolding(order, swept, state, 0).Some?))
  }

  /**
    Drops the state key and expiration key of the stamp of the first
    enumerated state key holding `state`; a no-op when none holds it.
   */
  function RemoveOAuthStateFromCache(s: Session, order: seq<string>, state: string): (s': Session)
    ensures (forall j :: 0 <= j < |order| ==> !HoldsState(s, order[j], state)) ==> s' == s
    ensures s'.Keys <= s.Keys && forall k :: k in s' ==> s'[k] == s[k]
    ensures forall k :: k in s && !IsStateKey(k) && !IsStateExpirationKey(k) ==> k in s'
  {
    match FirstStateHolding(order, s, state, 0)
    case None => s
    case Some(i) =>
      var stamp := StampOf(order[i]);
      var pair := {StateKey(stamp), StateExpirationKey(stamp)};
      StateKeyShape(stamp);
      assert forall k :: k in pair ==> IsStateKey(k) || IsStateExpirationKey(k);
      s - pair
  }

  /**
    A state value is outstanding at `now`: some state key holds it and the
    expiry stored under the same stamp has not passed.
   */
  ghost predicate Outstanding(s: Session, v: string, now: Instant) {
    exists k :: HoldsState(s, k, v) && StateExpirationKey(StampOf(k)) in s
      && !ExpiredAt(s[StateExpirationKey(StampOf(k))], now)
  }

  /** A stamp is among the pair keys exactly when it is among the stamps. */
  lemma InPairKeys(stamps: set<string>, t: string)
    ensures StateKey(t) in PairKeys(stamps) <==> t in stamps
    ensures StateExpirationKey(t) in PairKeys(stamps) <==> t in stamps
  {
    StateKeyShape(t);
    if StateKey(t) in PairKeys(stamps) {
      if t' :| t' in stamps && StateKey(t') == StateKey(t) {
        StateKeyShape(t');
      } else {
        var t' :| t' in stamps && StateExpirationKey(t') == StateKey(t);
        StateKeyShape(t');
      }
    }
    if StateExpirationKey(t) in PairKeys(stamps) {
      if t' :| t' in stamps && StateExpirationKey(t') == StateExpirationKey(t) {
        StateKeyShape(t');
      } else {
        var t' :| t' in stamps && StateKey(t') == StateExpirationKey(t);
        StateKeyShape(t');
      }
    }
  }

  /** In a well-formed session a stamp is swept exactly when its own expiry has passed. */
  lemma InExpiredStamps(s: Session, now: Instant, t: string)
    requires StatesWellFormed(s) && '#' !in t
    ensures t in ExpiredStamps(s, now) <==>
      StateExpirationKey(t) in s && ExpiredAt(s[StateExpirationKey(t)], now)
  {
    StateKeyShape(t);
    if t in ExpiredStamps(s, now) {
      var k :| k in s && IsStateExpirationKey(k) && ExpiredAt(s[k], now) && StampOf(k) == t;
      StampOfWellFormedKey(s, k);
    }
  }

  /**
    The sweep on one complete pair: both keys of a stamp survive when its
    expiry has not passed, and both are gone when it has.
   */
  lemma SweepOnPair(s: Session, now: Instant, k: string)
    requires StatesWellFormed(s) && k in s && (IsStateKey(k) || IsStateExpirationKey(k))
    ensures var t := StampOf(k); var s' := SweepExpiredStates(s, now);
      && StateKey(t) in s && StateExpirationKey(t) in s
      && (StateKey(t) in s' <==> !ExpiredAt(s[StateExpirationKey(t)], now))
      && (StateExpirationKey(t) in s' <==> !ExpiredAt(s[StateExpirationKey(t)], now))
      && (k == StateKey(t) || k == StateExpirationKey(t))
  {
    StampOfWellFormedKey(s, k);
    var t := StampOf(k);
    InPairKeys(ExpiredStamps(s, now), t);
    InExpiredStamps(s, now, t);
  }

  /**
    What the sweep does to a well-formed session: a state key survives
    exactly when the expiry under its stamp has not passed, an expiration
    key survives exactly when it has not passed, and the result is well
    formed again.
   */
  lemma SweepKeepsExactlyUnexpired(s: Session, now: Instant)
    requires StatesWellFormed(s)
    ensures var s' := SweepExpiredStates(s, now);
      && (forall k :: k in s && IsStateKey(k) ==>
            StateExpirationKey(StampOf(k)) in s
            && (k in s' <==> !ExpiredAt(s[StateExpirationKey(StampOf(k))], now)))
      && (forall k :: k in s && IsStateExpirationKey(k) ==> (k in s' <==> !ExpiredAt(s[k], now)))
      && StatesWellFormed(s')
  {
    var s' := SweepExpiredStates(s, now);
    forall k | k in s && IsStateKey(k)
      ensures StateExpirationKey(StampOf(k)) in s
      ensures k in s' <==> !ExpiredAt(s[StateExpirationKey(StampOf(k))], now)
    {
      SweepOnPair(s, now, k);
      StampOfWellFormedKey(s, k);
    }
    forall k | k in s && IsStateExpirationKey(k)
      ensures k in s' <==> !ExpiredAt(s[k], now)
    {
      SweepOnPair(s, now, k);
      StampOfWellFormedKey(s, k);
    }
    forall k | k in s' && (IsStateKey(k) || IsStateExpirationKey(k))
      ensures PairedAt(s', k)
    {
      SweepOnPair(s, now, k);
      StampOfWellFormedKey(s, k);
    }
  }

  /** The session once the state check has passed: swept, and the state removed. */
  function Consumed(s: Session, order: seq<string>, now: Instant, state: string): Session {
    RemoveOAuthStateFromCache(SweepExpiredStates(s, now), order, state)
  }

  /** In a well-formed session every state expiry reads as an instant, so the lookup never raises. */
  lemma WellFormedHasNoMalformedExpiry(s: Session)
    requires StatesWellFormed(s)
    ensures !HasMalformedStateExpiry(s)
  {
    forall k | k in s && IsStateExpirationKey(k) ensures Parse(s[k]).Some? {
      StampOfWellFormedKey(s, k);
    }
  }

  /** A state key that survives the sweep and holds `state` makes `state` outstanding. */
  lemma SurvivorIsOutstanding(s: Session, now: Instant, state: string, k: string)
    requires StatesWellFormed(s) && HoldsState(SweepExpiredStates(s, now), k, state)
    ensures Outstanding(s, state, now)
  {
    SweepKeepsExactlyUnexpired(s, now);
    assert HoldsState(s, k, state);
  }

  /** An outstanding value is held by a key the enumeration reaches after the sweep. */
  lemma OutstandingSurvives(s: Session, order: seq<string>, now: Instant, state: string)
    requires StatesWellFormed(s) && Enumerates(order, s) && Outstanding(s, state, now)
    ensures exists j :: 0 <= j < |order| && HoldsState(SweepExpiredStates(s, now), order[j], state)
  {
    SweepKeepsExactlyUnexpired(s, now);
    var k :| HoldsState(s, k, state) && StateExpirationKey(StampOf(k)) in s
      && !ExpiredAt(s[StateExpirationKey(StampOf(k))], now);
    assert k in order;
    var j :| 0 <= j < |order| && order[j] == k;
    assert HoldsState(SweepExpiredStates(s, now), order[j], state);
  }

  /**
    The lookup in terms of what was issued: on a well-formed session whose
    enumeration reaches every key, it succeeds exactly when `state` is still
    outstanding at `now`, and it leaves behind the swept session.
   */
  lemma FindIsOutstanding(s: Session, order: seq<string>, now: Instant, state: string)
    requires StatesWellFormed(s) && Enumerates(order, s)
    ensures FindOAuthStateInCache(s, order, now, state)
         == Outcome(SweepExpiredStates(s, now), Ok(Outstanding(s, state, now)))
  {
    WellFormedHasNoMalformedExpiry(s);
    var s' := SweepExpiredStates(s, now);
    if exists j :: 0 <= j < |order| && HoldsState(s', order[j], state) {
      var j :| 0 <= j < |order| && HoldsState(s', order[j], state);
      SurvivorIsOutstanding(s, now, state, order[j]);
    }
    if Outstanding(s, state, now) {
      OutstandingSurvives(s, order, now, state);
    }
  }

  /**
    Which state keys hold a value after an issue: the key just written holds
    the issued value, and every other state key holds what it held before.
   */
  lemma HoldersAfterAdd(s: Session, issued: Instant, nonce: string, v: string, k: string)
    ensures HoldsState(AddOAuthStateToCache(s, issued, nonce), k, v) <==>
      if k == StateKey(Render(issued)) then v == nonce else HoldsState(s, k, v)
  {
    var s' := AddOAuthStateToCache(s, issued, nonce);
    var stamp := Render(issued);
    StateKeyShape(stamp);
    assert k in {StateKey(stamp), StateExpirationKey(stamp)} || Agree(s, s', k);
  }

  /** After a pair is written under a `#`-free stamp, every tracker key still belongs to a complete pair. */
  lemma WritePairKeepsPairedAt(s: Session, stamp: string, value: string, expiry: string, k: string)
    requires StatesWellFormed(s) && '#' !in stamp && Parse(expiry).Some?
    requires k in WithPair(s, stamp, value, expiry) && (IsStateKey(k) || IsStateExpirationKey(k))
    ensures PairedAt(WithPair(s, stamp, value, expiry), k)
  {
    var s' := WithPair(s, stamp, value, expiry);
    WritePair(s, stamp, value, expiry);
    StateKeyShape(stamp);
    if k != StateKey(stamp) && k != StateExpirationKey(stamp) {
      assert Agree(s, s', k);
      StampOfWellFormedKey(s, k);
      var t := StampOf(k);
      assert Agree(s, s', StateKey(t));
      assert Agree(s, s', StateExpirationKey(t));
    }
  }

  /** After an issue, every tracker key still belongs to a complete pair. */
  lemma AddKeepsPairedAt(s: Session, now: Instant, nonce: string, k: string)
    requires StatesWellFormed(s)
    requires k in AddOAuthStateToCache(s, now, nonce) && (IsStateKey(k) || IsStateExpirationKey(k))
    ensures PairedAt(AddOAuthStateToCache(s, now, nonce), k)
  {
    RenderHasNoHash(now);
    ParseRender(now + StateLifetime);
    WritePairKeepsPairedAt(s, Render(now), nonce, Render(now + StateLifetime), k);
  }

  /** Issuing keeps the session well formed, and keeps values unique when the nonce is fresh. */
  lemma AddPreservesInvariants(s: Session, now: Instant, nonce: string)
    requires StatesWellFormed(s)
    ensures StatesWellFormed(AddOAuthStateToCache(s, now, nonce))
    ensures UniqueStates(s) && (forall k :: !HoldsState(s, k, nonce))
      ==> UniqueStates(AddOAuthStateToCache(s, now, nonce))
  {
    var s' := AddOAuthStateToCache(s, now, nonce);
    forall k | k in s' && (IsStateKey(k) || IsStateExpirationKey(k))
      ensures PairedAt(s', k)
    {
      AddKeepsPairedAt(s, now, nonce, k);
    }
    if UniqueStates(s) && (forall k :: !HoldsState(s, k, nonce)) {
      forall k, k' | k in s' && k' in s' && IsStateKey(k) && IsStateKey(k') && s'[k] == s'[k']
        ensures k == k'
      {
        HoldersAfterAdd(s, now, nonce, s'[k], k);
        HoldersAfterAdd(s, now, nonce, s'[k], k');
      }
    }
  }

  /** The only state key of a fresh issue that holds its nonce is the one just written. */
  lemma FreshNonceHasOneHolder(s: Session, issued: Instant, nonce: string, k: string)
    requires forall k' :: !HoldsState(s, k', nonce)
    requires HoldsState(AddOAuthStateToCache(s, issued, nonce), k, nonce)
    ensures k == StateKey(Render(issued))
  {
    HoldersAfterAdd(s, issued, nonce, nonce, k);
  }

  /**
    A state issued at `issued` with a fresh value validates exactly while
    `now <= issued + StateLifetime`: older than ten minutes, it never does.
   */
  lemma IssuedStateValidatesUntilExpiry(s: Session, order: seq<string>, issued: Instant, now: Instant, nonce: string)
    requires StatesWellFormed(s) && forall k :: !HoldsState(s, k, nonce)
    requires Enumerates(order, AddOAuthStateToCache(s, issued, nonce))
    ensures FindOAuthStateInCache(AddOAuthStateToCache(s, issued, nonce), order, now, nonce).result
         == Ok(now <= issued + StateLifetime)
  {
    var s' := AddOAuthStateToCache(s, issued, nonce);
    var stamp := Render(issued);
    AddPreservesInvariants(s, issued, nonce);
    FindIsOutstanding(s', order, now, nonce);
    RenderHasNoHash(issued);
    StateKeyShape(stamp);
    assert HoldsState(s', StateKey(stamp), nonce);
    forall k | HoldsState(s', k, nonce) ensures k == StateKey(stamp) {
      FreshNonceHasOneHolder(s, issued, nonce, k);
    }
  }

  /** Issuing twice at one instant leaves only the second issue's pair. */
  lemma AddAtSameInstant(s: Session, issued: Instant, first: string, second: string)
    ensures AddOAuthStateToCache(AddOAuthStateToCache(s, issued, first), issued, second)
         == AddOAuthStateToCache(s, issued, second)
  {
  }

  /**
    Two values issued at the same instant share one pair of keys: the second
    overwrites the first, which no longer validates at all.
   */
  lemma SameInstantIssueOverwrites(s: Session, order: seq<string>, issued: Instant, now: Instant, first: string, second: string)
    requires StatesWellFormed(s) && forall k :: !HoldsState(s, k, first)
    requires first != second
    requires Enumerates(order, AddOAuthStateToCache(AddOAuthStateToCache(s, issued, first), issued, second))
    ensures FindOAuthStateInCache(AddOAuthStateToCache(AddOAuthStateToCache(s, issued, first), issued, second),
                                  order, now, first).result == Ok(false)
  {
    var s2 := AddOAuthStateToCache(s, issued, second);
    AddAtSameInstant(s, issued, first, second);
    AddPreservesInvariants(s, issued, second);
    FindIsOutstanding(s2, order, now, first);
    forall k ensures !HoldsState(s2, k, first) {
      HoldersAfterAdd(s, issued, second, first, k);
    }
  }

  /**
    Removal in terms of the session: on a well-formed session it drops
    exactly the first enumerated state key holding the value, together with
    its expiration key, and nothing else.
   */
  lemma RemoveDropsFirstHolder(s: Session, order: seq<string>, state: string, i: nat)
    requires StatesWellFormed(s)
    requires i < |order| && HoldsState(s, order[i], state)
    requires forall j :: 0 <= j < i ==> !HoldsState(s, order[j], state)
    ensures RemoveOAuthStateFromCache(s, order, state)
         == s - {order[i], StateExpirationKey(StampOf(order[i]))}
  {
    var r := FirstStateHolding(order, s, state, 0);
    assert r == Some(i);
    StampOfWellFormedKey(s, order[i]);
  }

  /** Dropping the pair of one stamp leaves every other pair complete. */
  lemma DropPairKeepsPaired(s: Session, t: string, k: string)
    requires StatesWellFormed(s)
    requires k in s - {StateKey(t), StateExpirationKey(t)} && (IsStateKey(k) || IsStateExpirationKey(k))
    ensures PairedAt(s - {StateKey(t), StateExpirationKey(t)}, k)
  {
    StampOfWellFormedKey(s, k);
    var u := StampOf(k);
    StateKeyShape(u);
    assert u != t;
    StateKeyShape(t);
    assert StateKey(u) != StateKey(t) by {
      assert StateKey(u)[|StatePrefix()|..] != StateKey(t)[|StatePrefix()|..];
    }
    assert StateExpirationKey(u) != StateExpirationKey(t) by {
      assert StateExpirationKey(u)[|StateExpirationPrefix()|..] != StateExpirationKey(t)[|StateExpirationPrefix()|..];
    }
  }

  /** Dropping the pair of one stamp keeps the session well formed and its values unique. */
  lemma DropPairPreservesInvariants(s: Session, t: string)
    requires StatesWellFormed(s)
    ensures StatesWellFormed(s - {StateKey(t), StateExpirationKey(t)})
    ensures UniqueStates(s) ==> UniqueStates(s - {StateKey(t), StateExpirationKey(t)})
  {
    var s' := s - {StateKey(t), StateExpirationKey(t)};
    forall k | k in s' && (IsStateKey(k) || IsStateExpirationKey(k))
      ensures PairedAt(s', k)
    {
      DropPairKeepsPaired(s, t, k);
    }
  }

  /** Removal keeps the session well formed and its values unique. */
  lemma RemovePreservesInvariants(s: Session, order: seq<string>, state: string)
    requires StatesWellFormed(s)
    ensures StatesWellFormed(RemoveOAuthStateFromCache(s, order, state))
    ensures UniqueStates(s) ==> UniqueStates(RemoveOAuthStateFromCache(s, order, state))
  {
    var r := FirstStateHolding(order, s, state, 0);
    if r.Some? {
      DropPairPreservesInvariants(s, StampOf(order[r.value]));
    }
  }

  /**
    Removal consumes the value: when values are unique and the enumeration
    reaches every key, no state key holds it afterwards.
   */
  lemma RemoveConsumes(s: Session, order: seq<string>, state: string)
    requires StatesWellFormed(s) && UniqueStates(s) && Enumerates(order, s)
    ensures forall k :: !HoldsState(RemoveOAuthStateFromCache(s, order, state), k, state)
  {
    var s' := RemoveOAuthStateFromCache(s, order, state);
    var r := FirstStateHolding(order, s, state, 0);
    forall k | k in s' && IsStateKey(k) ensures s'[k] != state {
      if r.Some? {
        RemoveDropsFirstHolder(s, order, state, r.value);
        assert HoldsState(s, order[r.value], state);
      }
      assert k in order;
    }
  }

  /** Issuing a value and then dropping its instant's pair is just dropping the pair. */
  lemma DropPairAfterAdd(s: Session, issued: Instant, nonce: string)
    ensures AddOAuthStateToCache(s, issued, nonce) - {StateKey(Render(issued)), StateExpirationKey(Render(issued))}
         == s - {StateKey(Render(issued)), StateExpirationKey(Render(issued))}
  {
    var pair := {StateKey(Render(issued)), StateExpirationKey(Render(issued))};
    var s1 := AddOAuthStateToCache(s, issued, nonce);
    forall k ensures Agree(s1 - pair, s - pair, k) {
      if k !in pair {
        assert Agree(s, s1, k);
      }
    }
    assert (s1 - pair).Keys == (s - pair).Keys;
  }

  /**
    Issuing and then removing the same fresh value undoes the issue: the
    session is the original one without the pair for that instant.
   */
  lemma AddThenRemove(s: Session, order: seq<string>, issued: Instant, nonce: string)
    requires StatesWellFormed(s) && forall k :: !HoldsState(s, k, nonce)
    requires Enumerates(order, AddOAuthStateToCache(s, issued, nonce))
    ensures RemoveOAuthStateFromCache(AddOAuthStateToCache(s, issued, nonce), order, nonce)
         == s - {StateKey(Render(issued)), StateExpirationKey(Render(issued))}
  {
    var s1 := AddOAuthStateToCache(s, issued, nonce);
    var stamp := Render(issued);
    AddPreservesInvariants(s, issued, nonce);
    RenderHasNoHash(issued);
    StateKeyShape(stamp);
    assert StateKey(stamp) in order;
    var r := FirstStateHolding(order, s1, nonce, 0);
    var i := r.value;
    FreshNonceHasOneHolder(s, issued, nonce, order[i]);
    RemoveDropsFirstHolder(s1, order, nonce, i);
    DropPairAfterAdd(s, issued, nonce);
  }
}
