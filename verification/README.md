# Verified model of the Sokol Traefik plugin's decision path

This project models how the plugin decides what happens to a request, and proves what
operators rely on.

* **Decision cache** (`CacheKey.dfy`, `CacheRuns.dfy`, `Retention.dfy`,
  `DecisionCache.dfy`). `CacheRuns` describes one map from request fingerprint to entry and
  proves soundness for every run, with arbitrary timestamps; `Retention` says exactly when
  an accepted decision is safe from eviction. `DecisionCache` is the source's class with its
  two maps, purge loop and eviction loop; its ghost history makes every one of its states
  a run of the single map. `CacheKey` says what a fingerprint binds and what it does not.
* **Circuit breaker** (`CircuitBreaker.dfy`, `SerialRuns.dfy`). The three fields are a fold
  of the reported history; at most one admission between two reports while open; the storm
  bound, of histories and of the requests a middleware has served.
* **Request pipeline** (`Pipeline.dfy`, `PipelineResults.dfy`, `Actions.dfy`,
  `Middleware.dfy`). Any number of requests in flight over one cache and one breaker, the
  Agent an arbitrary oracle behind the response gate of `Agent.dfy`, timestamps unrelated to
  the order of steps. `Actions` says what each record ends in, mode by mode and page by page.
  The class `Middleware` is `ServeHTTP` from the cache on, over the mutable cache and breaker;
  each request it serves is a path of that machine between reachable states, and the action
  it performs is earned.
* **Front door** (`FrontDoor.dfy`). The first half of `ServeHTTP`, from the modules for client
  address, body and forwarding: when a request is turned away, what the Agent is told of one
  that is not, and what the cache key binds behind one configuration.
* **Forwarding** (`Selection.dfy`, `Forwarding.dfy`, `CookieForwarding.dfy`). The bounded
  greedy choice of headers and cookies: bounds, maximality, an exact truncation flag, and
  "all" mode extending "allowlist" mode.
* **Client address** (`Addresses.dfy`, `ProviderRanges.dfy`, `ClientIp.dfy`). CIDR
  containment (section 3.1 of RFC 4632) and mapped addresses (section 2.5.5.2 of RFC 4291)
  on bit strings, provider list parsing, the last-known-good store under every run of
  refreshes, the right-to-left walk, and the meaning of every reported source.
* **Body capture** (`Body.dfy`). Reading at most limit+1 bytes of a stream cut into pieces in
  any way, with faults anywhere, and handing the service behind exactly the original bytes;
  bodies that an earlier instance has wrapped included.

`Text.dfy` holds byte strings, their order, sorting and case folding.

## Where the code and its documentation differ

The model follows the code.

* `README.md:109-111` of the repository calls a cached decision bound to the exact request.
  Three things are not bound. The key has no mark between headers and cookies, so a header
  and a cookie can trade places (`CacheKey.HeaderAndCookieCanTradePlaces`). It folds cookie
  names, so cookies differing in case collide (`CacheKey.CookieCaseIsLost`). And it leaves
  out fields the Agent is sent: how the client address was found, the two modes and the two
  advertised lists (`CacheKey.ContextIsNotBound`, for every request). Two requests that share
  a key are the same request if and only if they carry the same truncation flags, the same
  header and cookie names and the same such fields (`CacheKey.FingerprintBindsWholeRequest`).
  Modes and lists are constant per middleware, so behind one configuration only the word for
  how the address was found is left (`FrontDoor.KeyBindsAllButSource`), and that one does
  vary: a visitor behind a trusted proxy and that visitor sending the same bytes directly
  share a key (`FrontDoor.ProxiedAndDirectShareAKey`). What a cached decision answers is said in those
  terms (`PipelineResults.CachedDecisionAnswersSameRequest`,
  `FrontDoor.CachedDecisionBehindDoor`).
* Timestamps are taken before the cache is locked, so creation times need not follow the
  order of insertions, and eviction goes by creation time. As long as it is not expired,
  replaced or outdated, an accepted decision outlasts every continuation that accepts fewer
  than maximumEntries other fingerprints if and only if every other decision stored at that
  moment was created strictly earlier (`Retention.RetainedExactlyIfNewest`).
* `README.md:144-145` calls non-public ranges rejected. Only a range's base address is
  checked: 8.0.0.0/5 passes although it holds 10.0.0.1
  (`Addresses.ListedRangeMayHoldPrivateAddresses`). A listed value that passes stands for
  none but public addresses exactly when its leading bits lead to no reserved block
  (`Addresses.PublicBaseMeansPublicRange`).
* `README.md:127-130` reports a header that names a provider node as unresolved. A node that
  both providers list is not recognized as one and is taken for the visitor
  (`ClientIp.NodeOfBothProvidersIsTakenForVisitor`); the header's address is accepted exactly
  when it is in neither provider's fresh lists or in both (`ClientIp.SourceMeaning`).

## Model

| member | source | states |
|---|---|---|
| Text.TokensExcludeDelimiters | plugin.go:468-478 | the characters of a valid name are the visible ones other than the delimiters |
| Text.CanonicalShape | forwarding.go:72-105 | canonical names are capital at the start and after a dash, and small elsewhere |
| Text.BeforeMeansFirstDifference | cache.go:181-186 | names are sorted by their first difference, proper prefixes first |
| Text.DecimalReadsBack | cache.go:132-141 | the digits of a number read back as that number |
| CacheKey.EncodeIsInjective | cache.go:176-179 | NUL-terminated parts can be read back: equal outputs mean equal lists of NUL-free parts |
| CacheKey.WriteStringMap | cache.go:181-191 | whatever order the map is ranged over, the bytes appended are those of the pairs in key order |
| CacheKey.EvaluationCacheKey | cache.go:143-170 | the key is the digest of the encoded fixed fields, flags, headers, cookies and body digest, independent of map iteration order |
| CacheKey.CacheCompositeKey | cache.go:132-141 | the composite key is the digest of the fingerprint followed by client, resource, scope, revision and cache key |
| CacheKey.CompositeDeterminesFingerprint | cache.go:132-141 | a composite key built on two fingerprints means the two are equal |
| CacheKey.CompositeBindsItsParts | cache.go:132-141 | equal composite keys of NUL-free parts mean equal fingerprint, client, resource, scope, revision and Agent's key |
| CacheKey.FingerprintBindsFixedFields | cache.go:143-169 | for NUL-free requests equal fingerprints mean equal nine fixed fields, with no condition on flags, maps or body |
| CacheKey.FingerprintBindsWholeRequest | cache.go:143-169 | for NUL-free requests: the same request, but for its ID, if and only if the same key, the same truncation flags, the same header and cookie names and the same fields the key leaves out |
| CacheKey.ContextIsNotBound | cache.go:143-169 | changing the address source, the modes or the advertised lists of any request changes neither its key nor its flags nor its names |
| CacheKey.FoldedNamesAreBound | cache.go:163-169 | where all names are folded, equal flags and equally many headers are enough: equal keys and equal left-out fields if and only if the same request |
| CacheKey.SomeDigestIsIdeal | cache.go:143-170 | the idealized hash assumed throughout exists |
| CacheKey.HeaderAndCookieCanTradePlaces | cache.go:163-164 | without the header count the key does not tell a header from a cookie |
| CacheKey.CookieCaseIsLost | cache.go:188-189 | cookies whose names differ only in case, as "A" and "a" do, share a key |
| CacheRuns.ValidatedAuthorization | cache.go:68-83 | for answers that passed the response gate, the storing conditions reduce to both limits being set, the Agent's grant and no challenge token, and the stored lifetime is the smaller of the Agent's milliseconds, in nanoseconds, and the configured one, free of wrap-around |
| CacheRuns.UngatedLifetimeCanWrap | cache.go:77-83 | without the gate the duration product can wrap to a negative lifetime |
| CacheRuns.RunsAreJustified | cache.go:39-123 | in every run, every stored entry is the latest accepted insertion for its fingerprint, at the highest revision ever accepted |
| CacheRuns.HitIsLatestAcceptedDeny | cache.go:39-66 | in every run a hit is, up to the request ID, the latest accepted deny for that fingerprint, of the highest revision accepted, before that insertion's time plus its clamped lifetime |
| CacheRuns.ReachableLedgers | cache.go:68-123 | every reachable cache holds at most maximumEntries entries, all authorized denies of the latest revision |
| CacheRuns.EvictionIsMinimal | cache.go:93-122 | an insertion that needs room removes exactly one entry, of least creation time, and only when nothing expired; otherwise no live entry is lost |
| CacheRuns.WhatAnInsertionKeeps | cache.go:86-122 | an expired entry or one of another revision goes; any other stays unless the cache was full of live ones, none of them for the new fingerprint, and it was an oldest |
| CacheRuns.WhatAnInsertionStores | cache.go:118-122 | the answer, its time and its time plus clamped lifetime are what is stored |
| Retention.AcceptedDenyIsRetained | cache.go:93-122 | a decision that was the newest when stored stays until an accepted insertion or a lookup of its own is stamped after its expiry, it is replaced, a higher revision arrives or maximumEntries other fingerprints were accepted after it; whatever comes later may carry any timestamps |
| Retention.RetainedExactlyIfNewest | cache.go:93-122 | a stored decision outlasts every continuation without those events if and only if every other decision stored with it was created strictly earlier |
| Retention.EarlierStampsMakeNewest | cache.go:93-122 | that is so when every insertion of the same revision accepted before it was stamped earlier |
| Retention.RetainedDenyIsServed | cache.go:39-123 | the next lookup of a retained decision is answered with it exactly until its time plus its clamped lifetime |
| Retention.RetentionUnderOrderedSweeps | cache.go:39-123 | where insertions and earlier lookups of the same fingerprint are stamped no later than the lookup, the lookup is a hit if and only if it precedes the expiry |
| Retention.RetentionCanHappen | cache.go:118-122 | the conditions of retention can be met: any authorized answer meets them when stored |
| Retention.TiedTimesMayEvictTheNewer | cache.go:105-117 | one failing case in full: two decisions created at one time fill a cache of two places, and a third may take the place of the later accepted one |
| DecisionCaches.DecisionCache.constructor | cache.go:30-37 | a new cache is empty and starts a run |
| DecisionCaches.DecisionCache.DeleteEntry | cache.go:125-130 | removes the entry, and its index slot only if that slot points to it |
| DecisionCaches.DecisionCache.Find | cache.go:46-65 | for any two maps: what is served, what is repaired and what is left alone |
| DecisionCaches.FoundRefinesLookup | cache.go:46-65 | on mutually inverse maps of one revision, that is the lookup in the single map, and the maps stay inverse |
| DecisionCaches.DecisionCache.Get | cache.go:39-66 | get is the single-map lookup filtered by expiry with the caller's request ID, and drops what it found expired |
| DecisionCaches.DecisionCache.StoredLifetime | cache.go:69-83 | a positive lifetime exactly for authorized denies, and then the clamped one |
| DecisionCaches.DecisionCache.Advance | cache.go:86-92 | a newer revision empties both maps, an older one is refused unchanged |
| DecisionCaches.DecisionCache.Purge | cache.go:93-97 | in any iteration order, exactly the expired entries leave |
| DecisionCaches.DecisionCache.Unseat | cache.go:100-104 | an entry of the same fingerprint under another composite key leaves |
| DecisionCaches.DecisionCache.EvictOldest | cache.go:106-116 | in any iteration order, one entry of least creation time leaves |
| DecisionCaches.DecisionCache.MakeRoom | cache.go:105-117 | one entry leaves exactly when the key is new and the cache is full |
| DecisionCaches.DecisionCache.Insert | cache.go:98-122 | replacing, evicting and storing together are the single-map insertion |
| DecisionCaches.DecisionCache.Put | cache.go:68-123 | put is the single-map insert, purge and evict step, and keeps both maps mutually inverse |
| DecisionCaches.DecisionCache.RepairBranchesAreDead | cache.go:50-63 | in every reachable cache an indexed fingerprint has its own entry, of the latest revision, so the repair branches of get never run |
| DecisionCaches.DecisionCache.CardinalityIsBounded | cache.go:105-117 | both maps have the same size, at most maximumEntries |
| DecisionCaches.DecisionCache.EveryHitWasSound | cache.go:39-66 | every hit in the cache's history was the latest accepted deny for its fingerprint |
| CircuitBreakers.CircuitBreaker.constructor | cache.go:202-204 | a new breaker is closed with an empty history |
| CircuitBreakers.CircuitBreaker.Allow | cache.go:206-220 | admits as the transition function says and records the attempt |
| CircuitBreakers.CircuitBreaker.Success | cache.go:222-228 | closes the breaker |
| CircuitBreakers.CircuitBreaker.Failure | cache.go:230-238 | counts, opens at the threshold from the reporter's own start time, and clears the probe |
| CircuitBreakers.BreakerIsFoldOfHistory | cache.go:206-238 | after any history: failures counts failures since the last success; open if and only if that reached the threshold; openUntil is the last reported failure plus openDuration; probe if and only if an open-state admission awaits a report; probe implies open |
| CircuitBreakers.AtMostOneAdmissionBetweenReports | cache.go:206-238 | between two reports an open breaker admits at most once, never before openUntil |
| CircuitBreakers.NoPendingProbeMeansAdmission | cache.go:206-220 | with no probe pending, admission depends on openUntil alone |
| CircuitBreakers.StormShape | cache.go:206-238 | in a sequential run without success, calls beyond the threshold are at least openDuration apart |
| CircuitBreakers.StormBound | cache.go:206-238 | any window of width W sees at most failureThreshold + W / openDuration Agent calls |
| Pipeline.HitsAreDenies | cache.go:68-76 | whatever a lookup serves is an authorized block or rate limit without challenge token |
| Pipeline.StepKeepsInv | middleware.go:88-114 | every step of every request keeps the system invariant |
| Pipeline.ReachableInv | middleware.go:88-114 | every interleaving of any number of requests keeps it |
| PipelineResults.ExactlyOneTerminalAction | middleware.go:15-150 | each request performs exactly one terminal action, at its end and never before |
| PipelineResults.EveryActionIsEarned | middleware.go:15-150 | every terminal action has its cause in the recorded history: passing on an allow or observe of an admitted request, on an unavailable failure under agentUnavailable=allow, on a malformed one under malformedResponse=allow, or on a lenient deny; denying by its own validated answer or the hit of its own lookup; failing with the status and reason of what happened to it, under that failure's own mode; and every hit was the validated answer to some request with the same key |
| PipelineResults.HitHasSource | middleware.go:88-113 | every hit ever given repeats the validated deny of a request with the same key, of the highest revision accepted by then, within that answer's lifetime |
| PipelineResults.DownstreamNeedsAllowOrFailureMode | middleware.go:88-150 | under explicitLocalDeny=deny the next handler runs only for an admitted request's own validated allow or observe, for an unavailable failure on record under agentUnavailable=allow, or for a malformed one under malformedResponse=allow |
| PipelineResults.FailClosedMeansAgentApproved | middleware.go:88-150 | with all modes deny, only the Agent's allow or observe reaches the next handler |
| PipelineResults.DefaultBranchIsUnreachable | middleware.go:129-131 | handleDecision is only given one of its named decisions |
| Actions.UnavailableEnds | middleware.go:134-150 | every unavailable failure ends in the 503 page "edge_agent_unavailable" if agentUnavailable is deny, else in the next handler, whatever the other modes |
| Actions.MalformedEnds | middleware.go:134-150 | every malformed answer ends in the 503 page "edge_agent_invalid_response" if malformedResponse is deny, else in the next handler |
| Actions.ApprovedEnds | middleware.go:116-119 | an admitted request that is allowed or observed goes on, whatever the modes |
| Actions.DeniedEnds | middleware.go:119-128 | a denied request gets that denial, a challenge with the configured local endpoint, unless explicitLocalDeny is allow |
| Actions.TurnedAwayEnds | middleware.go:24-54 | what each request turned away before the cache ends in |
| Actions.DenialPages | middleware.go:116-131 | every page that denies is of this request, 403 for block and challenge, 429 for rate limit, with a bounded retry and reason, the local endpoint in a challenge and no address of another site, cached ones included |
| PipelineResults.CachedDecisionAnswersSameRequest | middleware.go:58-113 | a hit answers some denied request with the same nine fields, which is the very same request if and only if flags, names and the fields the key leaves out agree |
| PipelineResults.RetainedDenyIsEnforced | middleware.go:89-96 | while a deny that was the newest when stored is retained, the next matching request is denied with it, without breaker or Agent |
| PipelineResults.ProbeMeansOutstandingRequest | middleware.go:93-107 | probe is set only while an admitted request has not reported |
| PipelineResults.BreakerNeverWedges | middleware.go:93-107 | with no request outstanding, admission is decided by openUntil alone |
| PipelineResults.BreakerFollowsReports | middleware.go:93-107 | in every interleaving the breaker's fields are the fold of the reports |
| PipelineResults.EveryRequestCanFinish | middleware.go:88-114 | no unfinished request is ever stuck: it has a step that brings it closer to its end and touches no other |
| PipelineResults.EveryStepAdvances | middleware.go:88-114 | every step of a request after its arrival lowers its rank, at most five, and touches no other |
| Middlewares.Middleware.constructor | middleware.go:88-114 | a new middleware is the start state of the step machine |
| Middlewares.Middleware.ServeHTTP | middleware.go:88-114 | serving a request that was taken in or turned away leads from a reachable state of the step machine to a reachable one, adds one flight that holds no other answer than the Agent's, and performs one action, which that flight has earned |
| Middlewares.Middleware.LookUpCached | middleware.go:88-92 | a hit ends the request with that decision, a miss goes on |
| Middlewares.Middleware.AskBreaker | middleware.go:93-97 | a refused request ends in the unavailable failure, an admitted one takes any answer |
| Middlewares.Middleware.ReportFailure | middleware.go:98-106 | a failure is reported with the request's own time and handled by its kind, which `Actions` spells out |
| Middlewares.Middleware.ReportSuccess | middleware.go:107-111 | any valid response counts as success, and an error decision ends the request as unavailable |
| Middlewares.Middleware.StoreDecision | middleware.go:112-113 | the decision is offered to the cache and applied |
| SerialRuns.FailingRequestsAreBounded | cache.go:206-238 | when requests are served in turn, stamped in that order, and the Agent answers none, a window of width W sees at most failureThreshold + W / openDuration requests put to the Agent |
| Middlewares.Middleware.StormIsBounded | middleware.go:88-107 | the same of everything a middleware has served, cache hits and turned away requests in between included |
| FrontDoor.TakeIn | middleware.go:15-87 | each way out before the cache is taken exactly under its own condition: no address, challenge route, bad metadata, failed capture, rejected oversize; any other request is described to the Agent as it arrived, and no body loses a byte |
| FrontDoor.MetadataMeaning | middleware.go:164-180 | the metadata let in, exactly: bounded lengths, a host on one line, a rooted path without query, fragment or NUL and without a dot or two dots as a segment |
| FrontDoor.ChallengeRoutes | challenge.go:22-48 | the routes kept for the challenge API are those under the prefix, both endpoints among them |
| FrontDoor.SchemeMeaning | middleware.go:182-194 | https for TLS or when a trusted peer's X-Forwarded-Proto says so, else http; from any other peer that header changes nothing |
| FrontDoor.ProtocolWords | middleware.go:196-213 | the word for each protocol, and no body is read but in plain HTTP |
| FrontDoor.Describe | middleware.go:56-87 | the request the Agent judges: address and source from the cascade, body whole or left out with its flag, headers and cookies the policy's choices, modes and lists the configuration's |
| FrontDoor.BodyIsTold | middleware.go:41-82 | of a body without faults the Agent is told every byte in order if it fits the limit, and otherwise only that it was too large |
| FrontDoor.SourceWords | middleware.go:18-61 | the Agent is told each of the six words exactly for its own source |
| FrontDoor.DescribedIsNulFree | middleware.go:164-180 | the metadata checks and the forwarding leave no NUL byte in what is keyed, and all header names folded |
| FrontDoor.KeyBindsAllButSource | middleware.go:58-84 | behind one configuration: the same request if and only if the same key, flags, names and word for how the address was found |
| FrontDoor.SameVisitorTwoSources | client_ip.go:42-58 | under the forwarded strategy one visitor is "forwarded" through a trusted proxy and "direct" without it |
| FrontDoor.ProxiedAndDirectShareAKey | middleware.go:58-84 | whatever the Agent is told of a visitor behind a trusted proxy, it is told the same of that visitor connecting directly with the same bytes and scheme, under the same key, flags and names, but "direct" in place of "forwarded": not the same request |
| FrontDoor.CachedDecisionBehindDoor | middleware.go:58-113 | a cached decision answers a request with the same nine fields, and the very same one if and only if flags, names and address source agree, with no assumption on NUL bytes left |
| FrontDoor.ServeHTTP | middleware.go:15-114 | both halves: the request is tested and described as above, served as one more flight, and everything ever evaluated has come in through this configuration |
| Selection.ChoiceIsBounded | forwarding.go:116-152 | whatever is offered, at most 128 entries and 64 KiB are kept, each name and value within its bound |
| Selection.KeptIsOffered | forwarding.go:136-151 | what is kept under a name is exactly what one of its offers begins with, cut after 4096 bytes |
| Selection.NothingDroppedStillFits | forwarding.go:132-151 | no acceptable value was dropped that would fit beside the final choice |
| Selection.LeftOutDoesNotFit | forwarding.go:132-151 | a good name and value left out would be entry 129 or pass 65536 bytes |
| Selection.FlagIsExact | forwarding.go:117-152 | the flag stays down if and only if everything offered was taken in full |
| Selection.LaterOffersDoNotDisturb | forwarding.go:119-152 | later offers under other names change nothing chosen before |
| Forwarding.NewForwardingPolicy | forwarding.go:65-94 | configured names without repetition, in order, with their sets and "all" mode lists |
| Forwarding.NewPoliciesAreValid | forwarding.go:72-92 | policies from a valid configuration have canonical, distinct, valid names |
| Forwarding.Remaining | forwarding.go:102-114 | the unlisted names, sorted by their folded form |
| Forwarding.SelectHeaders | forwarding.go:116-152 | the loop is the greedy choice over the names' offers, whose values `HeaderValuesAreCut` spells out |
| Forwarding.ForwardedHeaders | forwarding.go:99-161 | configured names first, then the sorted rest in whatever order it may stand, then the framing keys outside the bounds; every other value is the joined values of its header, or their first 4096 bytes; the result has folded names and no NUL byte, as the cache key asks |
| Forwarding.AllModeExtendsAllowlistHeaders | forwarding.go:99-161 | "all" mode restricted to configured names is exactly "allowlist" mode, before and after framing, and reports at least its truncations |
| Forwarding.HeaderChoiceIsBoundedAndMaximal | forwarding.go:116-152 | the bounds hold, and a good header was left out only because it does not fit |
| Forwarding.HeaderValuesAreCut | forwarding.go:119-151 | every value sent on is what the joined values of a header of that name begin with, its first 4096 bytes if they are more, and Cookie is never one of them |
| Forwarding.FramingMeaning | forwarding.go:153-159 | framing changes two keys at most: the length of what is no GET or HEAD, if known, and the transfer codings, if any |
| Forwarding.HeaderFlagIsExact | forwarding.go:117-152 | on canonical maps the flag is down if and only if every header in scope appears with its full joined value |
| Forwarding.HeaderOutcomeIsUnique | forwarding.go:104-152 | for every header map, neither map iteration nor the unstable sort can change the chosen headers or the flag |
| Forwarding.HeaderOrderIsUnique | forwarding.go:104-114 | where no two names fold together even their order is unique |
| Forwarding.CanonicalTokensDoNotFold | forwarding.go:104-114 | canonical maps of valid names meet that condition |
| CookieForwarding.FirstOfEach | forwarding.go:166-177 | the first value of each name, and whether a name repeated |
| CookieForwarding.NamesToForward | forwarding.go:178-193 | configured names that are present, then the sorted rest |
| CookieForwarding.SelectCookies | forwarding.go:194-213 | the loop is the greedy choice over the names' offers, whose values `CookieValuesAreCut` spells out |
| CookieForwarding.ForwardedCookies | forwarding.go:165-215 | the result and the flag are those of the greedy choice, for any map, without NUL byte; every value is the first of its name, or its first 4096 bytes |
| CookieForwarding.AllModeExtendsAllowlistCookies | forwarding.go:165-215 | "all" mode restricted to configured names is exactly "allowlist" mode |
| CookieForwarding.CookieChoiceIsBoundedAndMaximal | forwarding.go:194-213 | the bounds hold, and a good cookie was left out only because it does not fit |
| CookieForwarding.CookieValuesAreCut | forwarding.go:166-213 | every cookie sent on is the first of its name, its first 4096 bytes if it has more |
| CookieForwarding.CookieFlagIsExact | forwarding.go:165-214 | the flag is down if and only if no name repeats and every cookie in scope appears in full |
| Addresses.Normalize | client_ip.go:197-202 | mapped addresses become 32 bits and no result is mapped; others are unchanged |
| Addresses.MaskingComparesPrefixes | provider_ranges.go:115-117 | comparing under a CIDR mask compares exactly the leading bits |
| Addresses.NetworkMeansListing | provider_ranges.go:273-286 | the network kept for a listed value contains exactly the addresses its leading bits cover, single, dotted, mapped or not |
| Addresses.BaseIsLowest | provider_ranges.go:273-286 | the network kept for a listed value starts at its leading bits followed by zeros |
| Addresses.MappedBytes | client_ip.go:197-202 | a mapped address is ten zero bytes, two of ones and the four of IPv4 |
| Addresses.PublicByNumbers | provider_ranges.go:306-313 | an IPv4 address is public if and only if it is none of 0.0.0.0, 255.255.255.255, 127/8, 224/4, 169.254/16, 10/8, 172.16/12 and 192.168/16, byte by byte |
| Addresses.PublicByLeadingBits | provider_ranges.go:306-313 | a 128-bit one if and only if it is none of ::, ::1, ff00::/8, fe80::/10 and fc00::/7, bit by bit |
| Addresses.PublicBaseMeansPublicRange | provider_ranges.go:287-289 | a listed value with a public base stands for none but public addresses if and only if its leading bits lead to no reserved block, which `PublicByNumbers` and `PublicByLeadingBits` name |
| Addresses.ListedRangeMayHoldPrivateAddresses | provider_ranges.go:287-289 | the base check lets 8.0.0.0/5 pass, which covers 10.0.0.1 |
| ProviderRanges.ParseProviderNetworks | provider_ranges.go:265-304 | succeeds if and only if the list is nonempty, at most 8192 long and every value parses to a public base, as `PublicByNumbers` and `PublicByLeadingBits` say; errors name the first offender |
| ProviderRanges.NoNetworkTwice | provider_ranges.go:290-294 | no two kept networks print alike |
| ProviderRanges.ParsingKeepsTheUnion | provider_ranges.go:265-304 | deduplication keeps the union of the listed ranges, for every address |
| ProviderRanges.ProviderRangeStore.constructor | provider_ranges.go:82-87 | a new store has no sources |
| ProviderRanges.ProviderRangeStore.Replace | provider_ranges.go:89-100 | one source's snapshot is replaced |
| ProviderRanges.ProviderRangeStore.Refresh | provider_ranges.go:179-188 | after any refresh the store is the one its whole history of attempts leads to |
| ProviderRanges.Search | provider_ranges.go:115-127 | stopping at the first match finds whether any network contains the address |
| ProviderRanges.ProviderRangeStore.ProviderFor | provider_ranges.go:102-137 | in any iteration order, the classification over sources no older than the limit |
| ProviderRanges.SourcesHoldLastSuccess | provider_ranges.go:179-188 | for every run of attempts each source holds its last successful snapshot |
| ProviderRanges.SourcesComeFromSuccesses | provider_ranges.go:179-188 | and a source is held only if some attempt of it succeeded |
| ProviderRanges.FailuresLeaveNoTrace | provider_ranges.go:181-185 | a failed attempt anywhere in a run changes nothing later |
| ProviderRanges.ListedByMeansLatestLists | provider_ranges.go:102-188 | from fetched lists to answers: an address counts as a provider's if and only if the latest good list of one of its sources is fresh and covers it |
| ProviderRanges.StaleListsGrantNothing | provider_ranges.go:111-113 | with no success within the stale age, nothing counts as that provider's, not even as an ambiguity |
| ClientIp.SearchTrusted | client_ip.go:187-195 | trusted if and only if some trusted network contains the normalized address |
| ClientIp.ParseHops | client_ip.go:165-176 | accepts exactly chains of addresses and normalizes them in order |
| ClientIp.WalkBack | client_ip.go:177-184 | the loop from the right is the walk's specification |
| ClientIp.ExtractForwardedIP | client_ip.go:156-185 | the whole function is the walk, error cases included |
| ClientIp.OriginIsRightmostUntrusted | client_ip.go:177-184 | the walk answers the rightmost untrusted address, or the leftmost when all are trusted |
| ClientIp.LeftOfAnUntrustedHopIsIgnored | client_ip.go:177-184 | nothing left of an untrusted address matters |
| ClientIp.PrependedHopsAreIgnored | client_ip.go:156-185 | prepending valid hops within the limit never changes the result once an untrusted address exists |
| ClientIp.WalkMeaning | client_ip.go:156-185 | for every chain: when the walk fails (over 32 hops or a bad one, from a trusted peer), when it answers the peer, and which address it answers otherwise |
| ClientIp.ClassifyMeansVerified | provider_ranges.go:128-137 | what each verdict says about the two providers' fresh lists |
| ClientIp.WordOfVerified | client_ip.go:75-126 | what a verified peer's own header comes to, case by case |
| ClientIp.CloudflareNodeSpeaksByItsHeader | client_ip.go:94-126 | a deciding peer that is Cloudflare's alone is judged by the Cloudflare header, case by case, and changing the Bunny header changes nothing |
| ClientIp.BunnyNodeSpeaksByItsHeader | client_ip.go:94-126 | one that is Bunny's alone by the Bunny header, and changing the Cloudflare header changes nothing |
| ClientIp.OutcomeFollowsDecidingPeer | client_ip.go:23-67 | the outcome is the deciding peer's word if it is listed, itself if not, and the connection's peer with an error if none decides |
| ClientIp.SourceMeaning | client_ip.go:23-126 | each reported source, with its address, if and only if its condition on the deciding peer and that provider's own header holds |
| ClientIp.NodeOfBothProvidersIsTakenForVisitor | client_ip.go:122-124 | an address in both lists, named by a verified peer, is accepted |
| ClientIp.HeadersOfStrangersAreIgnored | client_ip.go:33-67 | without a listed or trusted peer no header changes the answer |
| ClientIp.OtherAddressesAreVouchedFor | client_ip.go:23-126 | any other address than the connection's peer was named by a verified node or reached through a trusted proxy's chain |
| Bodies.Reader.Read | body.go:11-30 | a stream or the replay of an earlier capture: any part of the rest, with or after its end or a fault, the prefix first, without loss or repetition |
| Bodies.ReadLimited | body.go:26-26 | never more than the limit is consumed, nothing is lost, it fails exactly when a fault lies within the limit and has then passed that fault, for buffers of any size |
| Bodies.Reader.Replay | body.go:27-30 | the replay gives the prefix and then all the wrapped reader still has |
| Bodies.Reader.Drain | body.go:27-30 | a consumer gets exactly the bytes before the first fault, all of them if only the end is one, and the end of file if and only if there is none |
| Bodies.CaptureRequestBody | body.go:20-39 | skipped, and untouched, exactly if there is no body or the request is not eligible; otherwise at most limit+1 bytes are read, the body still yields the original bytes, and the outcome depends on what the body has to give alone; a body already wrapped is wrapped again |
| Bodies.WhatIsCaptured | body.go:21-66 | eligible if and only if capture is on, the protocol is http, the path neither is nor lies under a configured prefix, and some pattern admits the media type |
| Bodies.BypassMeaning | body.go:59-66 | a prefix bypasses itself and what lies under it, with or without its final slash |
| Bodies.TypesMeaning | body.go:41-57 | a pattern, apart from white space around it and from case, admits that very type, or every type of its major type if it ends in a slash and a star |
| Bodies.CaptureThenForward | body.go:20-39 | the service behind reads exactly the original bytes whatever the capture came to, a lasting fault at the end included; past a fault in the middle it reads the bytes on both sides of it |
| Bodies.FaultlessNeverFails | body.go:31-33 | without a fault capturing never fails |
| Bodies.ChunkingIsInvisible | body.go:31-38 | without a fault the chunking is invisible: whole if and only if it fits the limit, oversized if and only if not |
| Bodies.BrokenBodiesFail | body.go:31-33 | a body that breaks before the limit is never taken for whole |

## Left out

Idealizations of what is modelled:

- SHA-256 is a function that never collides and yields nonempty text without NUL.
- Strings hold one character per byte; case folding is the ASCII one of header and cookie
  names, where the source folds Unicode.
- Times and durations are unbounded except for the 64-bit product in put; the failure
  counter, source ages and expiry times do not overflow.
- Each locked method is one atomic step; put computes its keys before the lock here, inside
  it in the source. The classes are proved for sequential calls, as runs of the step
  machine; interleavings are covered on that machine.
- Some loops of the source stand in methods of their own, called where the loop stands.
- The decision and mode strings are datatypes; an unknown decision is a constructor.
- Parsed input is given: `net.ParseIP`, `net.ParseCIDR`, `SplitHostPort`, cookie and media
  type parsing are represented by their outcomes, and the two provider headers by what their
  configured names hold.
- The provider store does not change during one request, and a missing store is an empty one.
- The client address functions take the store's contents as a value; `ProviderFor` ties that
  value to the store.
- A body is a finite stream of pieces that may fault between pieces and ends with end of file
  or a lasting fault, possibly wrapped by earlier captures.
- The key theorems ask for requests free of NUL. `FrontDoor` shows that of every request
  taken in, given that method, query, HTTP version and transfer codings arrive without NUL,
  which the HTTP library sees to.
- Enforcement modes, the forwarding policy and the advertised lists are constant for one
  middleware, as its configuration is.
- Printing an address is any function to text without NUL.
- The two halves of ServeHTTP stand in two modules; the clock is read twice, as two parameters.

Not modelled:

- HTTP transport to the Agent, dialing, TLS and JSON (`agent.go`): the Agent is any error or
  any response that passes the gate.
- Fetching, XML and line scanning, tickers and goroutines (`provider_ranges.go`): a fetch is
  unavailable or a list of values.
- Page rendering, content negotiation and nonces (`responses.go`, `pages/`): one terminal action.
- The challenge API (`challenge.go`): one terminal action.
- Configuration parsing (`plugin.go`) beyond the bounds used as preconditions.
- Request ID generation, the UTF-8 check of the path, protocol detection and logging
  (`middleware.go`): their outcomes are part of an arrival.
- Closing the original body through the replay reader: one forwarded call.
