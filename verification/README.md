# OAuth helper for Azure AD sign-in, modelled in Dafny

This project models `OAuthHelper`, the static helper class of the
AzureSsoSamples web applications. The helper is the client side of the OAuth
2.0 authorization-code grant (section 4.1 of RFC 6749) against Azure AD. It
renews access tokens with a refresh token (section 6 of RFC 6749) and guards
the callback with a single-use `state` value against cross-site request
forgery (section 10.12 of RFC 6749). It keeps everything in an ASP.NET
session, under keys that begin with `WindowsAzureAdCache#`. The source
captures that session, and the request, in static fields on first use and
never refreshes them (see "## Left out").

The model is functional. The session is a `map<string, string>` passed to
every operation, and each operation returns the session it leaves behind. The
clock is a parameter, as is the order in which the session enumerates its
keys. The fresh GUID used as the state value is a parameter too. So is the
identity provider's answer to a redemption: `Granted(...)` or `Refused`, the
latter standing for any exception from the token library. Each flow operation
also returns the redemption it sent to the identity provider, if any, so that
"no call to the provider" can be stated and proved. Exceptions become a
`Failure` value, one kind per distinct exception the source raises, whether a `throw` or a
runtime exception such as `FormatException`.

Modules, one per file:

- `Optional`, `Outcomes`: `Option` (the stand-in for a C# null), `Result`, `Outcome` and the `Failure` kinds.
- `Text`: ordinal `StartsWith` and `AfterLast`, the `Substring(LastIndexOf('#') + 1)` idiom.
- `Clock`: instants as whole seconds, and `Render`/`Parse`, the text they are stored as and read back from.
- `SessionCache`: the namespaced key/value cache and `RemoveAllFromCache`.
- `TokenStore`: one access token per resource plus its expiry, and the single refresh-token slot.
- `StateTracker`: issuing a state under a key built from the issue instant, the lookup (sweep, then scan) and the removal of the first match.
- `SessionInvariant`: the key families stay apart, and the well-formedness the operations keep.
- `PercentEncoding`: `Uri.EscapeDataString` (unreserved characters of section 2.3 of RFC 3986 kept, everything else as UTF-8 `%XX` with upper-case hex) and the decoder it is proved against.
- `QueryString`: `name=value&...` queries and reading them back.
- `Flow`: the callback, the sign-in URL and its overloads, and token acquisition and renewal.
- `FlowProperties`: the properties of the whole flow.

Behaviour of the code worth knowing:

- A cached token whose expiry equals the current instant is still served, because the comparison is a strict `<` (OAuthHelper.cs line 274).
- A stored expiry that is not a date raises (`Convert.ToDateTime`), modelled as `MalformedExpiry`. It is not treated as absent.
- Two states issued in the same second share one key pair, and the second overwrites the first (`StateTracker.SameInstantIssueOverwrites`).
- The return address is stored by the parameterless token overload only. `GetAccessTokenFromCacheOrRefreshToken(tenantId, resourceId)` never stores it.
- The return address is read and never removed after a successful callback (`FlowProperties.CallbackSuccessEffects`).

## Model

| member | source | states |
|---|---|---|
| SessionCache.CacheKey | CompleteSample/Devkeydet.OAuthHelper/OAuthHelper.cs:375-388 | every helper key starts with `WindowsAzureAdCache#`, and the name can be read back from the text after the prefix |
| SessionCache.SaveInCache | CompleteSample/Devkeydet.OAuthHelper/OAuthHelper.cs:375-378 | the namespaced key holds the value afterwards; every other key is unchanged |
| SessionCache.GetFromCache | CompleteSample/Devkeydet.OAuthHelper/OAuthHelper.cs:380-383 | a value is present exactly when the namespaced key is stored, and it is the stored value |
| SessionCache.RemoveFromCache | CompleteSample/Devkeydet.OAuthHelper/OAuthHelper.cs:385-388 | the namespaced key is gone; every other key is unchanged, and removing an absent name does nothing |
| SessionCache.GetAfterSave | CompleteSample/Devkeydet.OAuthHelper/OAuthHelper.cs:375-383 | a saved name reads back as the saved value; every other name reads as before |
| SessionCache.GetAfterRemove | CompleteSample/Devkeydet.OAuthHelper/OAuthHelper.cs:380-388 | a removed name reads as absent; every other name reads as before |
| SessionCache.RemoveAllFromCache | CompleteSample/Devkeydet.OAuthHelper/OAuthHelper.cs:390-407 | the keys kept are exactly the host application's keys (those without the helper prefix), each with its value |
| SessionCache.RemoveAllForgetsHelperWrites | CompleteSample/Devkeydet.OAuthHelper/OAuthHelper.cs:390-407 | clearing after a save or a removal is the same as clearing before it; after clearing, no helper name reads back |
| SessionCache.RemoveAllIdempotent | CompleteSample/Devkeydet.OAuthHelper/OAuthHelper.cs:390-407 | clearing twice is the same as clearing once |
| SessionInvariant.ClearingLeavesWellFormed | CompleteSample/Devkeydet.OAuthHelper/OAuthHelper.cs:390-407 | clearing the namespace leaves a well-formed session that holds no state value, whatever it held before |
| Clock.ParseRender | CompleteSample/Devkeydet.OAuthHelper/OAuthHelper.cs:270-272 | an instant written to the session as text reads back as the same instant |
| Clock.RenderInjective | CompleteSample/Devkeydet.OAuthHelper/OAuthHelper.cs:307-312 | different issue instants give different key suffixes |
| Clock.RenderHasNoHash | CompleteSample/Devkeydet.OAuthHelper/OAuthHelper.cs:309-311 | the text of an instant holds no `#`, the separator inside keys |
| Text.AfterLast | CompleteSample/Devkeydet.OAuthHelper/OAuthHelper.cs:329-330 | the result is the longest suffix that is free of the separator; when it is shorter than the text, the separator comes right before it |
| Text.AfterLastOfSeparated | CompleteSample/Devkeydet.OAuthHelper/OAuthHelper.cs:365-366 | a key built as prefix-ending-in-`#` plus a `#`-free stamp gives back exactly that stamp |
| TokenStore.TokenKeysDistinct | CompleteSample/Devkeydet.OAuthHelper/OAuthHelper.cs:258-303 | token keys, expiry keys and the refresh slot never collide, and different resources get different keys |
| TokenStore.SaveAccessTokenInCache | CompleteSample/Devkeydet.OAuthHelper/OAuthHelper.cs:258-262 | the token is stored, and its expiry is stored so that it reads back as the given instant; nothing else changes |
| TokenStore.RemoveAccessTokenFromCache | CompleteSample/Devkeydet.OAuthHelper/OAuthHelper.cs:284-288 | both keys of the resource are gone; nothing else changes |
| TokenStore.GetAccessTokenFromCache | CompleteSample/Devkeydet.OAuthHelper/OAuthHelper.cs:264-282 | a token is returned exactly when it is live, and then the session is unchanged. A stale token (expiry passed or missing) is reported absent, and exactly its two keys are evicted. A malformed expiry raises and changes nothing |
| TokenStore.SaveThenRead | CompleteSample/Devkeydet.OAuthHelper/OAuthHelper.cs:258-288 | a token saved with expiry `e` reads back unchanged at any `now <= e`; at `now > e` it is absent, and exactly its two keys have gone |
| TokenStore.SaveLeavesOtherResources | CompleteSample/Devkeydet.OAuthHelper/OAuthHelper.cs:258-282 | saving a token for one resource does not change what is read for any other resource |
| TokenStore.WellFormedReadsNeverFail | CompleteSample/Devkeydet.OAuthHelper/OAuthHelper.cs:270-272 | when every stored expiry is a date, reading a token never raises |
| TokenStore.TokenWritesPreserveWellFormed | CompleteSample/Devkeydet.OAuthHelper/OAuthHelper.cs:258-303 | token and refresh-token writes keep every stored expiry readable |
| TokenStore.SaveRefreshTokenInCache | CompleteSample/Devkeydet.OAuthHelper/OAuthHelper.cs:290-293 | the refresh token reads back as the saved one; nothing else changes |
| TokenStore.GetRefreshTokenFromCache | CompleteSample/Devkeydet.OAuthHelper/OAuthHelper.cs:295-298 | present exactly when the slot is filled, with its value |
| TokenStore.RemoveRefreshTokenFromCache | CompleteSample/Devkeydet.OAuthHelper/OAuthHelper.cs:300-303 | the refresh token reads as absent afterwards; nothing else changes |
| StateTracker.StateKeyShape | CompleteSample/Devkeydet.OAuthHelper/OAuthHelper.cs:311-312 | a state key is never an expiration key, and a `#`-free stamp is recovered from either key |
| StateTracker.StampOfWellFormedKey | CompleteSample/Devkeydet.OAuthHelper/OAuthHelper.cs:329-334 | in a well-formed session the stamp recovered from a tracker key rebuilds that key, and its pair is complete |
| StateTracker.AddOAuthStateToCache | CompleteSample/Devkeydet.OAuthHelper/OAuthHelper.cs:305-313 | the nonce is stored under the key of the issue instant, with an expiry that reads back as ten minutes later; nothing else changes |
| StateTracker.HoldersAfterAdd | CompleteSample/Devkeydet.OAuthHelper/OAuthHelper.cs:305-313 | after an issue, the new key holds the nonce and every other state key holds what it held before |
| StateTracker.AddPreservesInvariants | CompleteSample/Devkeydet.OAuthHelper/OAuthHelper.cs:305-313 | issuing keeps the pairs complete, and keeps state values unique when the nonce is fresh |
| StateTracker.FreshNonceHasOneHolder | CompleteSample/Devkeydet.OAuthHelper/OAuthHelper.cs:305-313 | a fresh nonce is held by the key just written and by no other |
| StateTracker.AddAtSameInstant | CompleteSample/Devkeydet.OAuthHelper/OAuthHelper.cs:307-312 | two issues at one instant leave only the second issue's pair |
| StateTracker.SweepExpiredStates | CompleteSample/Devkeydet.OAuthHelper/OAuthHelper.cs:320-337 | the sweep only removes entries, and never removes a key outside the tracker |
| StateTracker.SweepOnPair | CompleteSample/Devkeydet.OAuthHelper/OAuthHelper.cs:320-337 | on a complete pair, both keys survive the sweep when the expiry has not passed, and both go when it has |
| StateTracker.SweepKeepsExactlyUnexpired | CompleteSample/Devkeydet.OAuthHelper/OAuthHelper.cs:320-337 | a state key survives exactly when the expiry under its stamp has not passed, and the swept session is well formed |
| StateTracker.WellFormedHasNoMalformedExpiry | CompleteSample/Devkeydet.OAuthHelper/OAuthHelper.cs:320-326 | in a well-formed session every state expiry is a date, so the sweep never raises |
| StateTracker.FirstStateHolding | CompleteSample/Devkeydet.OAuthHelper/OAuthHelper.cs:357-363 | the index found is the first key in enumeration order that is a state key holding the value; none is found exactly when no key holds it |
| StateTracker.FindOAuthStateInCache | CompleteSample/Devkeydet.OAuthHelper/OAuthHelper.cs:315-353 | raises exactly when some state expiry is not a date, and then changes nothing. Otherwise it leaves the swept session, and answers true exactly when an enumerated state key of the swept session holds the value |
| StateTracker.FindIsOutstanding | CompleteSample/Devkeydet.OAuthHelper/OAuthHelper.cs:315-353 | on a well-formed session the lookup answers whether the value is held by a state whose own expiry has not passed |
| StateTracker.IssuedStateValidatesUntilExpiry | CompleteSample/Devkeydet.OAuthHelper/OAuthHelper.cs:305-353 | a fresh state issued at `T` is found exactly when `now <= T + 10 min`, so an older one never validates |
| StateTracker.SameInstantIssueOverwrites | CompleteSample/Devkeydet.OAuthHelper/OAuthHelper.cs:305-353 | of two different values issued in the same second, the first is never found |
| StateTracker.RemoveOAuthStateFromCache | CompleteSample/Devkeydet.OAuthHelper/OAuthHelper.cs:355-373 | it only removes entries and never a key outside the tracker; it does nothing when no enumerated state key holds the value |
| StateTracker.RemoveDropsFirstHolder | CompleteSample/Devkeydet.OAuthHelper/OAuthHelper.cs:355-373 | exactly the first enumerated holder and its expiration key are removed, and nothing else |
| StateTracker.RemovePreservesInvariants | CompleteSample/Devkeydet.OAuthHelper/OAuthHelper.cs:355-373 | removal keeps the pairs complete and the values unique |
| StateTracker.RemoveConsumes | CompleteSample/Devkeydet.OAuthHelper/OAuthHelper.cs:355-373 | with unique values and a complete enumeration, no state key holds the value after removal |
| StateTracker.DropPairAfterAdd | CompleteSample/Devkeydet.OAuthHelper/OAuthHelper.cs:305-313 | issuing and then dropping that instant's pair is the same as just dropping the pair |
| StateTracker.AddThenRemove | CompleteSample/Devkeydet.OAuthHelper/OAuthHelper.cs:305-373 | issuing a fresh value and then removing it gives the original session without that instant's pair |
| SessionInvariant.HelperKeysAreNotTracker | CompleteSample/Devkeydet.OAuthHelper/OAuthHelper.cs:258-313 | no token key, refresh slot, `TenantId` or `RedirectTo` key is a tracker key |
| SessionInvariant.NamedKeysDistinct | CompleteSample/Devkeydet.OAuthHelper/OAuthHelper.cs:113-117 | `TenantId`, `RedirectTo` and the token keys are all different keys |
| SessionInvariant.SameTrackerKeepsStates | CompleteSample/Devkeydet.OAuthHelper/OAuthHelper.cs:305-373 | sessions that agree on the tracker keys have the same state holders, well-formedness and uniqueness |
| SessionInvariant.HelperWritesKeepTracker | CompleteSample/Devkeydet.OAuthHelper/OAuthHelper.cs:258-303 | token writes and writes of `TenantId`/`RedirectTo` leave every tracker key alone |
| SessionInvariant.NamedWritesKeepTokens | CompleteSample/Devkeydet.OAuthHelper/OAuthHelper.cs:117 | writing `TenantId` or `RedirectTo` keeps every token expiry readable |
| SessionInvariant.IssueKeepsTokens | CompleteSample/Devkeydet.OAuthHelper/OAuthHelper.cs:305-313 | issuing a state keeps every token expiry readable |
| SessionInvariant.TrackerOpsKeepOutside | CompleteSample/Devkeydet.OAuthHelper/OAuthHelper.cs:305-373 | issue, sweep and removal change only tracker keys |
| SessionInvariant.ConsumedKeepsOutside | CompleteSample/Devkeydet.OAuthHelper/OAuthHelper.cs:85-92 | the sweep plus the removal of the state change only tracker keys |
| PercentEncoding.EscapeDataString | CompleteSample/Devkeydet.OAuthHelper/OAuthHelper.cs:146-149 | the escaped text holds only unreserved characters and `%`, and is at least as long as the input |
| PercentEncoding.DecodeEscapedChar | CompleteSample/Devkeydet.OAuthHelper/OAuthHelper.cs:146-149 | every character, one to four UTF-8 bytes, is decoded back from its escaped form, whatever follows it |
| PercentEncoding.UnescapeEscape | CompleteSample/Devkeydet.OAuthHelper/OAuthHelper.cs:146-149 | decoding undoes escaping for every string |
| QueryString.SplitJoin | CompleteSample/Devkeydet.OAuthHelper/OAuthHelper.cs:141 | cutting joined fields at the separator gives the fields back, when none of them holds the separator |
| QueryString.FieldRoundTrip | CompleteSample/Devkeydet.OAuthHelper/OAuthHelper.cs:141-149 | a `name=value` field reads back as its name and value; it holds no `&`, and holds no `?` when the name has none |
| QueryString.QueryRoundTrip | CompleteSample/Devkeydet.OAuthHelper/OAuthHelper.cs:138-149 | a query written from parameters with plain names reads back as exactly those parameters, in order, and holds no `?` |
| Flow.ProcessAccessTokenAndGetReturnUrl | CompleteSample/Devkeydet.OAuthHelper/OAuthHelper.cs:62-124 | any redemption names the common authority, the code, the callback address on the request's host and the client. There is no redemption exactly when a check failed or an expiry was malformed, and then only tracker keys change |
| Flow.ConsumeState | CompleteSample/Devkeydet.OAuthHelper/OAuthHelper.cs:85-124 | the same promises from the state lookup on |
| Flow.RedeemAfterStateCheck | CompleteSample/Devkeydet.OAuthHelper/OAuthHelper.cs:92-124 | after the state check, there is no redemption exactly when the state was unknown or the provider reported an error, and then the session is unchanged |
| Flow.AuthorizeQuery | CompleteSample/Devkeydet.OAuthHelper/OAuthHelper.cs:138-149 | the sign-in query reads back as `response_type=code`, the client, the resource, the callback address and the state, for any values; it holds no `?` |
| Flow.GetAuthorizationUrl | CompleteSample/Devkeydet.OAuthHelper/OAuthHelper.cs:126-150 | the state is issued, the URL starts with the authorize endpoint of the common tenant, and its parameters read back as the values given |
| Flow.GetAuthorizationUrlTo | CompleteSample/Devkeydet.OAuthHelper/OAuthHelper.cs:175-178 | the same with the configured resource: the state is issued, the URL begins with the common authorize endpoint followed by `?`, and its parameters read back as the client, the configured resource, the callback address and the state |
| Flow.GetAuthorizationUrlForRequest | CompleteSample/Devkeydet.OAuthHelper/OAuthHelper.cs:180-184 | the same with the configured resource and the callback page on the request's host: the state is issued, the URL begins with the common authorize endpoint followed by `?`, and its parameters read back as the client, the configured resource, that callback page and the state |
| Flow.GetAccessTokenFromRefreshToken | CompleteSample/Devkeydet.OAuthHelper/OAuthHelper.cs:204-250 | never raises; it asks the provider exactly when a refresh token is stored, and the redemption carries that refresh token, the tenant's authority, the client and the resource |
| Flow.GetAccessTokenFromCacheOrRefreshToken | CompleteSample/Devkeydet.OAuthHelper/OAuthHelper.cs:186-202 | it can only raise on a malformed expiry, and then it asks nothing and changes nothing |
| Flow.GetAccessTokenForSignedInUser | CompleteSample/Devkeydet.OAuthHelper/OAuthHelper.cs:152-173 | it answers as the two-argument overload for the configured resource. When there is no token it also remembers the request URL under `RedirectTo`, and that is the only extra key it touches |
| FlowProperties.CallbackChecksInOrder | CompleteSample/Devkeydet.OAuthHelper/OAuthHelper.cs:62-101 | on a well-formed session each failure happens exactly when the earlier checks passed and its own failed. The checks are secure transport, state present, state outstanding, no provider error. A redemption happens exactly when all four pass |
| FlowProperties.FailedChecksWriteNoTokens | CompleteSample/Devkeydet.OAuthHelper/OAuthHelper.cs:62-101 | a failed check sends nothing and leaves the access token, refresh token, `TenantId` and `RedirectTo` as they were |
| FlowProperties.InvalidStateRemovesNothing | CompleteSample/Devkeydet.OAuthHelper/OAuthHelper.cs:85-90 | an unknown state leaves only the sweep's changes; the clean-up removal finds nothing |
| FlowProperties.UnheldStateNotFound | CompleteSample/Devkeydet.OAuthHelper/OAuthHelper.cs:315-353 | a value no state key holds is not found, and the lookup only sweeps |
| FlowProperties.UnheldStateIsRefused | CompleteSample/Devkeydet.OAuthHelper/OAuthHelper.cs:85-90 | a callback carrying a never-issued state is refused, and nothing is redeemed |
| FlowProperties.PastStateCheck | CompleteSample/Devkeydet.OAuthHelper/OAuthHelper.cs:67-92 | over a secure transport with readable expiries, the callback goes on with the swept session minus the state |
| FlowProperties.RedeemKeepsTracker | CompleteSample/Devkeydet.OAuthHelper/OAuthHelper.cs:97-123 | nothing after the state check touches a tracker key |
| FlowProperties.TrackerAfterStateCheck | CompleteSample/Devkeydet.OAuthHelper/OAuthHelper.cs:85-124 | past the state check, the tracker is exactly the swept session minus the state |
| FlowProperties.NoReplay | CompleteSample/Devkeydet.OAuthHelper/OAuthHelper.cs:85-92 | after a callback gets past the state check, a second callback with the same state is refused and redeems nothing |
| FlowProperties.StoreGrantedTokensEffects | CompleteSample/Devkeydet.OAuthHelper/OAuthHelper.cs:113-117 | after a grant, the token is live exactly until five minutes before the provider's expiry; the refresh token and the tenant are stored; only those keys change |
| FlowProperties.GrantedCallbackSession | CompleteSample/Devkeydet.OAuthHelper/OAuthHelper.cs:102-124 | a granted redemption leaves the consumed session with the grant stored, and returns the stored `RedirectTo`, or fails when there is none |
| FlowProperties.GrantOnOutsideCopy | CompleteSample/Devkeydet.OAuthHelper/OAuthHelper.cs:113-123 | the grant's effects seen from any session that agrees outside the tracker with the one it was stored on |
| FlowProperties.CallbackSuccessEffects | CompleteSample/Devkeydet.OAuthHelper/OAuthHelper.cs:102-124 | a granted callback stores the token (live until five minutes before expiry), the refresh token and the tenant. It returns the `RedirectTo` value stored before the callback and keeps it stored. No other key outside the tracker changes |
| FlowProperties.CallbackTokenServedFromCache | CompleteSample/Devkeydet.OAuthHelper/OAuthHelper.cs:113-195 | after a granted callback, a token request for the configured resource is served from the cache with no redemption, until five minutes before the provider's expiry |
| FlowProperties.RefusedCodeWritesNoTokens | CompleteSample/Devkeydet.OAuthHelper/OAuthHelper.cs:106-113 | a refused redemption fails with `CodeRedemptionFailed` and changes only tracker keys |
| FlowProperties.CallbackSessionCases | CompleteSample/Devkeydet.OAuthHelper/OAuthHelper.cs:62-124 | the callback leaves one of three sessions: the given one, the consumed one, or the consumed one with the grant stored |
| FlowProperties.CallbackKeepsWellFormed | CompleteSample/Devkeydet.OAuthHelper/OAuthHelper.cs:62-124 | the callback keeps the session well formed, whatever happens |
| FlowProperties.AuthorizationKeepsWellFormed | CompleteSample/Devkeydet.OAuthHelper/OAuthHelper.cs:126-150 | building the sign-in URL keeps the session well formed |
| FlowProperties.RenewalKeepsWellFormed | CompleteSample/Devkeydet.OAuthHelper/OAuthHelper.cs:204-250 | renewal leaves every tracker key as it was and keeps the session well formed and its state values unique, whatever the provider answers |
| FlowProperties.AcquisitionKeepsWellFormed | CompleteSample/Devkeydet.OAuthHelper/OAuthHelper.cs:186-250 | getting a token from the cache or by renewal leaves every tracker key as it was and keeps the session well formed and its state values unique |
| FlowProperties.SignedInAcquisitionKeepsWellFormed | CompleteSample/Devkeydet.OAuthHelper/OAuthHelper.cs:152-173 | the signed-in user's overload, with its write of `RedirectTo`, leaves every tracker key as it was and keeps the session well formed and its state values unique |
| FlowProperties.IssuedStateAcceptedUntilExpiry | CompleteSample/Devkeydet.OAuthHelper/OAuthHelper.cs:126-136 | the state of a sign-in URL gets a secure, error-free callback to redemption exactly within ten minutes; later callbacks are refused as an invalid state |
| FlowProperties.FreshStateAccepted | CompleteSample/Devkeydet.OAuthHelper/OAuthHelper.cs:62-92 | the same, stated on the session the issue leaves |
| FlowProperties.CachedTokenServedAsIs | CompleteSample/Devkeydet.OAuthHelper/OAuthHelper.cs:193-195 | a live cached token is returned as it is, with no redemption and no change to the session |
| FlowProperties.NoLiveTokenRenews | CompleteSample/Devkeydet.OAuthHelper/OAuthHelper.cs:193-202 | without a live token, the answer is renewal's answer on the session with the stale token evicted |
| FlowProperties.NothingToRenewWith | CompleteSample/Devkeydet.OAuthHelper/OAuthHelper.cs:193-221 | with no live token and no refresh token, there is no token and the provider is not asked |
| FlowProperties.RenewalOutcomes | CompleteSample/Devkeydet.OAuthHelper/OAuthHelper.cs:204-250 | with no refresh token nothing happens. A refusal drops the refresh token and changes nothing else. A grant stores the new token, live until five minutes before expiry, and the new refresh token, and returns the token; nothing else changes |
| FlowProperties.RenewedTokenIsCached | CompleteSample/Devkeydet.OAuthHelper/OAuthHelper.cs:186-250 | a renewed token is served afterwards from the cache, without a redemption, until its margin |
| FlowProperties.AcquisitionKeepsNamedKeys | CompleteSample/Devkeydet.OAuthHelper/OAuthHelper.cs:186-250 | getting a token never touches `RedirectTo` or `TenantId` |
| FlowProperties.RememberReturnOnlyWhenSignInNeeded | CompleteSample/Devkeydet.OAuthHelper/OAuthHelper.cs:161-170 | `RedirectTo` is set to the request URL exactly when no token could be had; otherwise it is left as it was |

## Left out

- The lazily initialised static `Session` and `Request` accessors (OAuthHelper.cs lines 27-59): the source fills both on first access and never refreshes them, so every later call, for any user, reads and writes the first request's session and checks the first request's scheme, host, URL and query (lines 67, 100, 109, 169, 182). The model gives each call its own session and request as explicit parameters.
- Case-insensitive session keys: the ASP.NET session store identifies keys that differ only in case, while the model's `Session` is a case-sensitive map. Every contract that tells two keys apart therefore holds only for names that also differ when case is ignored. Those contracts are the frames of `SessionCache.SaveInCache` and `SessionCache.RemoveFromCache`, the lookup of `SessionCache.GetFromCache`, and the frames and lookups of `TokenStore.SaveAccessTokenInCache`, `TokenStore.RemoveAccessTokenFromCache` and `TokenStore.GetAccessTokenFromCache`. They also include the "nothing else changes" clauses of `FlowProperties.StoreGrantedTokensEffects`, `FlowProperties.CallbackSuccessEffects` and `FlowProperties.RenewalOutcomes`. For example, after a token is saved for `https://graph.windows.net/`, the session store serves it to a read for `https://Graph.windows.net/` (line 266), where the model answers `Ok(None)`. The four lines below are the lemmas that compare two names directly. Unicode case mapping is not modelled.
- GetAfterSave: promises that every other name reads as before; in the session store a name that differs from the saved one only in case reads the saved value.
- GetAfterRemove: promises that every other name reads as before; in the session store removing a name also removes the entry of a name that differs from it only in case.
- TokenKeysDistinct: promises different keys for different resources; resources whose names differ only in case share their keys in the session store.
- SaveLeavesOtherResources: promises that a save for one resource leaves another's reads alone; for a resource whose name differs only in case, the session store serves the saved token.
- Culture-sensitive prefix tests: the sweep, the scan and the removal (lines 323, 346, 360) call `StartsWith(string)`, which compares under the current culture; only `RemoveAllFromCache` (line 397) compares ordinally. `Text.StartsWith` is ordinal everywhere, and culture-specific collation is not modelled.
- Concurrent use of one session: every operation is one atomic step on the map.
- Mutating the session while it is being enumerated (lines 320-337): the sweep calls `Session.Remove` inside its `foreach` (lines 333-334), so the enumerator raises `InvalidOperationException` on its next step after any removal. In the source, a lookup in a session that holds an expired state pair therefore removes exactly one pair and then raises, and the callback fails. The model's sweep is a pure filter that removes every expired pair and continues. `StateTracker.SweepExpiredStates`, `StateTracker.FindOAuthStateInCache`, `StateTracker.FindIsOutstanding`, `StateTracker.IssuedStateValidatesUntilExpiry` and the callback lemmas built on them describe that filter, not the raising enumeration. The removal at lines 357-372 returns right after removing, so it is not affected.
- Culture-dependent `DateTime` text and sub-second time: instants are whole seconds, and `Render`/`Parse` stand in for `ToString`/`Convert.ToDateTime`.
- `Guid.NewGuid`: the state value is a parameter. Freshness is a precondition where a property needs it.
- The token library's network calls and `ClientCredential`/`ida:AppKey`: the answer is the `TokenReply` input, and the request made is the returned `Exchange`.
- `ConfigurationManager`: the settings are the `Config` record. `ida:AADInstance` is assumed to end with its `{0}` placeholder and is modelled as the text before it. Text after the placeholder is dropped by `Flow.Authority`; in the source it would follow `common` in the redemption authority (line 106) and follow the whole query, after the state value, in the authorize URL (lines 138-149). `string.Format` failures on other braces in the setting are not modelled either.
- `ClaimsPrincipal.Current` (line 155): the tenant claim is a parameter.
- The `request` parameter of `GetAuthorizationUrl` (line 126): unused by the source, so not modelled.
- The `error_description` parameter of `ProcessAccessTokenAndGetReturnUrl` (line 62), which the source never reads: the error message takes `error_description` from the request's query string, as line 100 does. Only the presence of `error` matters, not its text. The `code` text is carried into the redemption, and the `state` text is compared by the lookup.
- Null token fields in a provider's answer: a grant carries strings.
- `RedirectTo` is a `Uri` in the source; the model stores its text.
- Lone surrogates, which `Uri.EscapeDataString` rejects: Dafny's `char` is a Unicode scalar value, so they cannot occur.
- The sweep on a session with a malformed state expiry: it raises before removing anything. The source may already have removed expired pairs enumerated before the malformed one, depending on the enumeration order.
- The message texts of the exceptions: each exception is a `Failure` kind.
