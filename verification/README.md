# WebhookWise, modelled and proved in Dafny

WebhookWise is an alert gateway: it takes webhooks in, unwraps and normalises them, threads repeats of
one alert together, has new ones analysed and forwards what is worth forwarding. This project models the
parts of it that carry an algorithm or a protocol and proves what they promise, for every input and
every run. `dafny verify dfyconfig.toml` checks all of it.

| file | part of the system |
|---|---|
| `Json.dfy` | the JSON grammar of RFC 8259 (sections 2 to 7) with its whitespace, a printer and a reader for it |
| `BalancedSpan.dfy` | extraction of a JSON document from free text (`core/json.py`) |
| `Salvage.dfy`, `SalvageRecovery.dfy`, `SalvageGuarantees.dfy`, `RelayEnvelope.dfy` | relay envelopes and the salvage of truncated ones (`adapters/ecosystem_adapters.py`) |
| `PubSubCache.dfy`, `CacheStaleness.dfy` | the TTL cache with its invalidation protocol, and how stale it can get |
| `SessionActions.dfy`, `RequestSessions.dfy` | after-commit actions in `session_scope` and in request sessions |
| `LeaseGate.dfy`, `GateProgram.dfy` | the per-alert gate: slots, the distributed lease and its refresh |
| `DedupWindow.dfy`, `DedupKeys.dfy` | the dedup window over time, and the keys alerts are threaded by |
| `LiteStore.dfy`, `LitePipeline.dfy`, `LiteDelivery.dfy`, `LiteRuns.dfy`, `LitePacing.dfy`, `LiteGates.dfy` | WebhookWise Lite: tables, decision chain, outbox, and every serial run of them |
| `CircuitBreaker.dfy` | the circuit breaker's CLOSED cache across processes |
| `Compression.dfy` | payload compression and the UTF-8 argument behind its format sniffing |
| `WebhookPayload.dfy` | the payload boundary and its copy and validate twins |
| `DnsCache.dfy`, `Pagination.dfy` | the bounded DNS cache, cursor pagination |

## How the models are built

- Code that updates fields, tables or local buffers is a class or a method with loops, proved against a
  specification function; the lemmas are about that function. Code between two awaits is one method.
- Concurrent protocols are step relations: a run is a sequence of states and steps from an initial state,
  and a property of runs holds at every position of every run. The Redis scripts in `core/redis_lua` are
  modelled statement by statement, each as one atomic step.
- The salvage and extraction theorems are about texts of the grammar. What is recovered from a prefix is
  defined on the grammar (`SalvageRecovery.Recover`), without the scanner except where a key with a quotation mark in
  it is misread, and then proved equal to what the scanner, the pattern and the reader compute. `Json.LoadsAcceptsExactlyTheGrammar` ties the reader to the grammar.

## What the proofs found

Where a promise does not hold as written, the code is kept, a lemma shows an input or a run that breaks it, and
another gives the exact condition.

- `extract_balanced_json_text` is documented to scan every opening position. It stops at the first opener that
  never closes. After any prose, code and set notation included, the document's position is visited exactly when the
  loop, run on the prose alone, meets no such opener (`DocumentVisitedIffProseSettled`, `OpenerHidesDocument`).
- Salvage keeps the raw text of a straddling key, so an escaped key comes back as its escape
  (`StraddlingKeyIsGenuineIffPlain`, `EscapedKeyIsKeptRaw`). An object is never recovered whole, not even when all of it
  has arrived, unless it is empty: its last member is dropped, or shortened when it is itself a non-empty object
  (`RecoveredWholeIffEmpty`). A key whose own text contains an escaped quotation mark, a colon and a brace is cut at that
  quotation mark, and salvage can return a pair that is not in the document (`PatternFindsOwnKeyIff`,
  `UnreadableKeyInventsAPair`).
- With a lock TTL of one second the refresh interval equals the TTL and two workers can both believe they hold the
  lock; exclusion holds exactly when the refresh, with its lateness, comes before the TTL ends
  (`ExclusiveIffRefreshInTime`, `PunctualExclusion`). This is so at a slot threshold of one too: a body that outlives the
  counter key frees a second slot when it releases (`SlotFreedTwice`).
- After-commit actions of a request session run whenever the handler leaves no transaction open. So they also run for a
  registration whose own transaction was rolled back, and are dropped for one that was committed when a later statement
  left a transaction open (`RolledBackWorkIsPublished`, `CommittedWorkIsDropped`). Exactly when neither happens is stated
  per registration in `OnlyCommittedPublishedIff` and `NoCommittedDroppedIff`. An action that raises takes the ones behind
  it with it.
- A lost invalidation is documented to cost at most one TTL of staleness. The TTL counts from the end of the load, so it
  is the TTL and the load's duration; one TTL suffices exactly when loads take no time (`ServedVersionBound`,
  `StaleByTtlOnlyIff`).
- The configuration check demands an analysis reuse window of at least one dedup window. A chain older than the
  dedup window is never served exactly when the reuse window is at least two dedup windows and the processing
  delay (`ReusesOnlyYoungChainsIff`).
- The breaker's CLOSED cache runs from the moment the reply is seen, so a trip can go unnoticed for the cache TTL
  and the reply's latency; the documented bound holds exactly at zero latency (`LagsByTtlOnlyIff`). Dropping the cache
  after a failure is defeated exactly when a CLOSED answer is in flight (`DropDefeatedIffAnswerInFlight`). A state check that raised
  is cached as CLOSED, although the comment beside it says such fallbacks are not (`Breaker.SeeReply`).
- In Lite, duplicates count as arrivals and extend the dedup window, and cooldown can fire exactly when it is positive
  and longer than the dedup window (`DuplicateIff`, `CooldownCanFireIff`). The rules table admits two rules of one name;
  then one alert is delivered twice under that name, no cooldown apart. All deliveries of one identity under one name are
  paced exactly when no alert is matched twice under one name (`KeepsPaceIff`, `SharedNameBreaksPace`).
- The payload twins return equal values exactly when all containers are plain dictionaries and lists; with a tuple
  inside, copying turns it into a list and validating keeps it (`TwinsAgree`, `TupleSplitsTwins`).
- The built-in dedup key ignores severity unless every component is blank; then the alert hash stands in
  (`SeverityMattersIffNothingElse`, `SeverityAloneSplitsKeys`). Alert hashes of two namespaces meet exactly when the payload's identity brings its own
  namespace (`AlertHashNamespaces`, `OwnNamespaceMeetsOutside`).

## Model

| member | source | states |
|---|---|---|
| Json.ReadValueExact | core/json.py:26-27 | reading the text of any value, followed by anything that cannot extend it, gives that value back and stops where it ends |
| Json.LoadsText | core/json.py:26-27 | `loads` inverts printing for every value and every whitespace in and around it |
| Json.LoadsAcceptsExactlyTheGrammar | core/json.py:26-27 | `loads` succeeds on exactly the texts of the grammar |
| Json.NumberIff | core/json.py:26-27 | the number tokens are exactly a sign or none, digits without a leading zero, a fraction or none and an exponent or none |
| Json.EscapeByNumber | core/json.py:26-27 | every character, written as one escape by its number or as a surrogate pair, decodes to itself |
| Json.LaterMemberWins | core/json.py:26-27 | of members with one key the last one counts, and the others stay |
| Json.MeaningOfEach | core/json.py:26-27 | what literals, numbers, strings, arrays and objects denote |
| Json.DecodeEach | core/json.py:26-27 | each two-character escape denotes its control character or itself |
| Json.TokensAre | core/json.py:26-27 | the blanks, the literal names and the characters a string may hold |
| BalancedSpan.BalancedSpanFrom | core/json.py:30-58 | the stack loop returns the span that ends where the stack first empties, or nothing |
| BalancedSpan.RestValue | core/json.py:39-57 | inside a container, a whole value returns the scanner to the state before it: scanner state follows grammar position |
| BalancedSpan.SpanOfContainer | core/json.py:30-58 | the scan from the opener of any object or array, whatever follows, returns exactly that container |
| BalancedSpan.SpanOfTruncated | core/json.py:33-58 | on every proper prefix of a container it returns nothing |
| BalancedSpan.ExtractBalancedJsonText | core/json.py:61-98 | the outer loop returns the chosen one of the top-level spans; without arrays it starts and ends with a brace |
| BalancedSpan.ChosenIsLast | core/json.py:88-98 | chosen is the last span that parses, else the last span, and nothing only where there is none |
| BalancedSpan.SpansAreDelimited | core/json.py:75-84 | without arrays, every span of every text runs from a brace to a brace |
| BalancedSpan.SpansWithArraysAreDelimited | core/json.py:75-84 | with arrays, every span runs from a brace to a brace or from a bracket to a bracket |
| BalancedSpan.ForeignCloserIsSkipped | core/json.py:50-57 | between strings a closer other than the one awaited is passed over |
| BalancedSpan.SpansOfRender | core/json.py:80-97 | the top-level spans of settled prose interleaved with documents are the spans of the prose and the documents, in order |
| BalancedSpan.OnlyDocuments | core/json.py:80-97 | between opener-free prose they are exactly the documents |
| BalancedSpan.ExtractionReturnsLastDocument | core/json.py:61-98 | between settled prose, brackets of its own included, extraction returns the last complete document, whatever settled prose without a parseable span and cut-off document follow it; without a document, the last balanced span |
| BalancedSpan.SettledProseKeepsDocument | core/json.py:64-98 | after any settled prose the document is the one further span and is what extraction returns |
| BalancedSpan.DocumentVisitedIffProseSettled | core/json.py:67-88 | for all prose, the document's own position is visited if and only if the loop on the prose alone meets no opener that never closes |
| BalancedSpan.OpenerHidesDocument | core/json.py:85-87 | an opening brace in front of any document makes extraction return nothing |
| BalancedSpan.SpansGainDocumentIffSettled | core/json.py:67-88 | after prose without quotes the document is one more span if and only if the prose is settled; otherwise no span is added |
| BalancedSpan.SpansAreAtStarts | core/json.py:80-97 | there is one visited position for each span, and the span is the text there |
| Salvage.LastTopLevelComma | adapters/ecosystem_adapters.py:119-140 | the loop ends with the index of the last comma outside strings at depth 1, or -1, as the specification scan gives it |
| Salvage.SalvageTruncatedObject | adapters/ecosystem_adapters.py:97-157 | the loop, the parse of the cut and the recursion compute `Salvaged` |
| Salvage.SalvageTrailingObjectPair | adapters/ecosystem_adapters.py:79-94 | the mutually recursive half computes `TrailingPair` |
| SalvageRecovery.RunValue | adapters/ecosystem_adapters.py:123-140 | a whole value below the top brace leaves depth, string state and cut as they were |
| SalvageRecovery.CutOfSplit | adapters/ecosystem_adapters.py:123-140 | on every prefix of a member list the scanner's cut is the comma before the straddling member |
| SalvageRecovery.MatchMember | adapters/ecosystem_adapters.py:90-93 | on every prefix of every member: under a key without quotation marks the pattern matches exactly when an object's brace has arrived, and yields that key and that text; otherwise it matches exactly when a colon and a brace follow the first quotation mark inside the key |
| SalvageRecovery.SalvageOfPrefix | adapters/ecosystem_adapters.py:97-157 | salvage of any prefix of an object inside closing text, at any depth, is the recovery defined on the grammar, for every object |
| SalvageRecovery.SalvageOfTruncatedDocument | adapters/ecosystem_adapters.py:97-157 | for every object text and proper prefix, salvage parses its own cut and returns exactly the pairs before the last top-level comma and the straddling member's share: recursively that of an object, or what is misread from a key with a quotation mark in it |
| SalvageGuarantees.RecoveredIsPart | adapters/ecosystem_adapters.py:80-116 | with distinct escape-free keys, every recovered field is a field of the original, whole, or a part of a straddling object, recursively |
| SalvageGuarantees.SalvageInventsNothing | adapters/ecosystem_adapters.py:97-157 | whatever salvage returns for a cut document with distinct escape-free keys is a part of that document's meaning |
| SalvageGuarantees.RecoveryGrows | adapters/ecosystem_adapters.py:110-113 | whatever a prefix recovers, every longer prefix recovers at least as much of |
| SalvageGuarantees.StraddlingKeyIsGenuineIffPlain | adapters/ecosystem_adapters.py:90-94 | a straddling pair carries the raw key up to its first quotation mark, which is the real key if and only if it has no escape |
| SalvageGuarantees.PatternFindsOwnKeyIff | adapters/ecosystem_adapters.py:90-94 | the pattern finds a member's own key or nothing if and only if the key's text does not itself read as the end of a key, a colon and a brace |
| SalvageGuarantees.RecoveredWholeIffEmpty | adapters/ecosystem_adapters.py:139-157 | from any prefix, the complete text included, and at any depth, an object with distinct escape-free keys is recovered whole if and only if it is empty |
| SalvageGuarantees.UnreadableKeyInventsAPair | adapters/ecosystem_adapters.py:90-94 | a concrete document, cut, from which salvage returns a key and a nested pair that the document does not contain |
| SalvageGuarantees.GivenUp | adapters/ecosystem_adapters.py:117-148 | text that is not an object, or whose part before the cut is not one, is given up whole |
| SalvageGuarantees.ThreeLevels | adapters/ecosystem_adapters.py:76-156 | a straddling object is opened up to the third level and not beyond |
| SalvageGuarantees.FrontIsKept | adapters/ecosystem_adapters.py:141-150 | with distinct escape-free keys, every member before the straddling one is recovered with its whole value |
| SalvageGuarantees.EscapedKeyIsKeptRaw | adapters/ecosystem_adapters.py:90-94 | a concrete document whose escaped key comes back as the characters of the escape |
| RelayEnvelope.LoadsOfTruncatedFails | adapters/ecosystem_adapters.py:186-188 | no proper prefix of a container parses, so a cut body always reaches salvage |
| RelayEnvelope.WrapsIff | adapters/ecosystem_adapters.py:73-185 | a document counts as a wrapper if and only if one key alone holds text that starts with a brace under a relay key and no other value is structured |
| RelayEnvelope.KeptUnlessWrapper | adapters/ecosystem_adapters.py:176-185 | without a candidate, with several, or with a structured value beside the only one, the document is kept |
| RelayEnvelope.BracedDocumentIsObject | adapters/ecosystem_adapters.py:186-211 | text that starts with a brace and parses is an object, so a wrapper holds an object or nothing that parses |
| Salvage.SpacesAre | adapters/ecosystem_adapters.py:90 | blanks beyond those of JSON count for the pattern and for stripping, zero-width ones do not |
| RelayEnvelope.CompleteDocumentUnwraps | adapters/ecosystem_adapters.py:176-213 | an envelope around a complete object is replaced by it if and only if it has more fields than the envelope |
| RelayEnvelope.TruncatedDocumentUnwraps | adapters/ecosystem_adapters.py:176-209 | an envelope around an object cut anywhere is replaced by exactly the recovered pairs if and only if these are more than the envelope's |
| RelayEnvelope.MatchPairIsThePattern | adapters/ecosystem_adapters.py:90 | the matching function returns the two groups of the regular expression whenever it matches, and only then |
| PubSubCache.TtlPubSubCache.Invalidate | core/pubsub_cache.py:68-75 | the value is dropped and the epoch advances |
| PubSubCache.TtlPubSubCache.Lookup | core/pubsub_cache.py:84-91 | a hit is returned exactly when a value is younger than the TTL |
| PubSubCache.TtlPubSubCache.FinishLoad | core/pubsub_cache.py:92-101 | the loaded value is stored if and only if the epoch is still the one noted before the load |
| CacheProtocol.StepKeepsInv | core/pubsub_cache.py:68-129 | every step of any worker, transaction or message keeps the protocol's invariant |
| CacheProtocol.GetAfterInvalidation | core/pubsub_cache.py:68-101 | in every run, a `get` that starts after an invalidation returns no value whose load began before it |
| CacheProtocol.NoPreCommitRead | core/pubsub_cache.py:103-129 | once the after-commit action ran on a worker, or its message arrived there, no later `get` there returns a pre-commit value |
| CacheProtocol.SingleFlight | core/pubsub_cache.py:84-101 | at most one load per cache is in flight |
| CacheProtocol.LockIsHeldByALoad | core/pubsub_cache.py:86-101 | in every run a waiting `get` can take the reload lock exactly when no load is in flight |
| CacheProtocol.FinishedLoadIsStored | core/pubsub_cache.py:92-101 | a load that no invalidation overtook is stored with the version it read and its own time |
| CacheProtocol.OvertakenLoadIsNotStored | core/pubsub_cache.py:90-101 | a load overtaken by an invalidation leaves the cache alone |
| CacheProtocol.CachedReadIsWithinTtl | core/pubsub_cache.py:77-89 | with any messages lost, a value served from the cache was stored less than one TTL before |
| CacheStaleness.ServedVersionBound | core/pubsub_cache.py:14-15 | in every run with any messages lost, a value served from the cache at t is at least the version committed at t less the TTL and the longest load |
| CacheStaleness.StaleByTtlOnlyIff | core/pubsub_cache.py:14-15 | over all runs, one TTL bounds the staleness if and only if loads take no time |
| CacheStaleness.SlowLoadExtendsStaleness | core/pubsub_cache.py:92-100 | with any slower load there is a run that serves a value older than one TTL |
| CacheProtocol.StoredByALoad | core/pubsub_cache.py:90-101 | every stored value came from a load that finished at that moment with a committed version |
| SessionActions.Session.Register | db/session.py:26-35 | a known key keeps its position and gets the new action, a new key goes last, every other entry stays, and keys stay unique |
| SessionActions.Session.RunAfterCommit | db/session.py:38-44 | the dictionary is emptied first, then the actions run in order up to and including the first that raises |
| SessionActions.AllRunOnce | db/session.py:42-44 | without a raising action, each action runs exactly once, in order |
| SessionActions.RunsUpToFirstRaise | db/session.py:42-44 | with a raising action, exactly the actions up to and including the first that raises are run |
| SessionActions.SessionScope | db/session.py:165-190 | actions run only after the commit returned, and not at all when the body or the commit fails; the scope raises exactly when one of those or an action does |
| SessionActions.NestedScope | db/session.py:180-181 | with an existing session the registrations are added to it and nothing is committed, run or discarded |
| SessionActions.GetDbSession | db/session.py:123-160 | actions run, behind all commits, if and only if the handler returned and left no transaction open; otherwise they are discarded |
| RequestSessions.PublishedIff | db/session.py:139-153 | the action under the key of a registration is run if and only if the handler returned and executed nothing behind its last commit or rollback |
| RequestSessions.CommittedIff | db/session.py:26-33 | a registration's own transaction was committed if and only if an end follows it and a commit separates it from every later rollback |
| RequestSessions.OnlyCommittedPublishedIff | db/session.py:144-153 | nothing is published for work that was not committed, if and only if nothing is published, or every registration is followed by an end and separated by a commit from every later rollback |
| RequestSessions.NoCommittedDroppedIff | db/session.py:139-153 | no committed registration is dropped, if and only if the handler returned and executed nothing behind its last end, or no registration has a commit behind it before the next rollback |
| RequestSessions.RolledBackWorkIsPublished | db/session.py:149-153 | two handlers that publish rolled-back work: a rollback last, and a rollback followed by another commit |
| RequestSessions.CommittedWorkIsDropped | db/session.py:149-151 | two handlers that drop committed work: a read behind the commit, and a further transaction left open |
| SessionActions.OneActionPerKey | db/session.py:26-35 | after any registrations each registered key holds exactly one action, the last one |
| LeaseGate.StepKeepsLockInv | core/alert_concurrency.py:130-192 | every step of any worker keeps the lock invariant: tokens are unique and a lease within its end is backed by the key |
| LeaseGate.SoleHolder | core/alert_concurrency.py:130-192 | within its lease a worker is the only holder, and the unexpired key carries its token |
| LeaseGate.LostForGood | core/alert_concurrency.py:130-192 | in every run, a lock that is gone, by expiry or because it was taken, never comes back: the key never carries the worker's token again, and the worker was protected no longer than until then |
| LeaseGate.NextRefreshDetectsLoss | core/alert_concurrency.py:174-192 | in every run, once the lock is gone or another worker takes the key, answered or not, the old holder's next refresh sets `lock_lost`, and it stays set |
| LeaseGate.LossIsNoticedInTime | core/alert_concurrency.py:174-192 | in every run, from then on the old holder is without `lock_lost` for at most the refresh interval and its lateness, less the TTL |
| LeaseGate.ExclusiveIffRefreshInTime | core/alert_concurrency.py:130-192 | no reachable state has two workers that believe they hold the lock if and only if interval plus lateness is below the TTL |
| LeaseGate.PunctualExclusion | core/alert_concurrency.py:174-181 | with punctual refreshes that is the case from a TTL of two seconds on and fails at one |
| LeaseGate.OverlapWhenRefreshTooLate | core/alert_concurrency.py:130-192 | otherwise, at every slot threshold and counter lifetime, there is a run in which a second worker enters beside a confident first one |
| LeaseGate.SlotFreedTwice | core/redis_lua/alert_release_queue_slot.lua:1-8 | at a threshold of one, a body that outlives the counter key leaves one worker at the free lock and a slot for another |
| LeaseGate.EveryExitReleasesOnce | core/alert_concurrency.py:195-236 | in every run, a gate that is done released its reserved slot exactly once and its lock exactly once |
| LeaseGate.ReleaseFreesKey | core/alert_concurrency.py:165-171 | in every run, after a release that reached Redis the key never carries the worker's token again |
| LeaseGate.WaiterFollowsRelease | core/redis_lua/alert_release_lock_if_owner.lua:1-4 | right after its owner released the key, a waiting worker can take it |
| LeaseGate.ForeignReleaseSparesKey | core/redis_lua/alert_release_lock_if_owner.lua:1-4 | a release under another token leaves the key to its holder |
| LeaseGate.RefreshRenews | core/redis_lua/alert_refresh_lock_if_owner.lua:1-4 | the owner's refresh renews the key for a whole TTL and raises no alarm |
| LeaseGate.ConfidentIsRecent | core/alert_concurrency.py:174-192 | in every run, a worker that believes it holds the lock got or renewed it at most max(1, ttl / 3) and the lateness ago |
| LeaseGate.RefreshWaitsForInterval | core/alert_concurrency.py:177-179 | no refresh comes before a second, or a third of the TTL, has passed |
| LeaseGate.SlotRefusedIff | core/redis_lua/alert_reserve_queue_slot.lua:1-8 | a slot is refused if and only if the threshold is on and reached |
| LeaseGate.ExpiryTakesAWindow | core/redis_lua/alert_reserve_queue_slot.lua:6-7 | in every run, the counter key times out only a whole window after the last slot was reserved |
| LeaseGate.ReleaseProlongsCounter | core/redis_lua/alert_release_queue_slot.lua:1-8 | and a whole window after the last release that left slots taken |
| LeaseGate.CounterTimesOut | core/redis_lua/alert_reserve_queue_slot.lua:7 | the counter key is gone from the end of its window on, and not before |
| LeaseGate.CounterCountsHolders | core/alert_concurrency.py:78-123 | the slot counter never exceeds the threshold and, without expiry or lost releases, equals the number of workers between reserve and release |
| GateProgram.AcquireLock | core/alert_concurrency.py:130-162 | the polling loop ends with the lock, a broken answer or a timeout exactly as the first answer other than busy, or the deadline, has it, and otherwise goes on |
| GateProgram.RefreshLock | core/alert_concurrency.py:174-192 | the refresh loop renews until its first failure, and sets `lock_lost` exactly when there is one |
| GateProgram.ProcessingGate | core/alert_concurrency.py:195-236 | for all answers of Redis the call walks to its last phase, unless it is still polling; `lock_lost` is set if and only if the lock was held and a renewal failed, and the alert is suppressed if and only if the slot was not granted or a distributed lock not got |
| GateProgram.ProtocolStepIsLocal | core/alert_concurrency.py:195-236 | each protocol step of a worker is a step of its call with the same outcome |
| GateProgram.LocalStepIsProtocol | core/alert_concurrency.py:195-236 | each step a call can make, the key being free or the interval over where it waits for that, is enabled in the protocol |
| GateProgram.CallFollowsProtocol | core/alert_concurrency.py:195-236 | a call answered by the shared state, among any steps of others, is part of a run of `LeaseGate`, and what it knows of itself is its gate there |
| GateProgram.WalkBalances | core/alert_concurrency.py:195-236 | at every point of every call, slots and locks taken are those given back and those still held |
| DedupWindow.ResolveCases | services/dedup.py:458-536 | NEW, REUSE and RECHAIN, and the chain reset, as exact conditions on the age and the silence of the chain |
| DedupWindow.LostChainFallsBack | services/dedup.py:510-536 | when the chain is lost, stale or without analysis, the newest original decides: reused if and only if within the window and reusable, else new |
| DedupWindow.ChainIsKept | services/dedup.py:84-97 | the chain is visible for two windows after its last event, a minute at least, and not longer |
| DedupWindow.ChainCounts | core/redis_lua/dedup_remember.lua:19-37 | a repeat adds one to the count and keeps the head; a rechain starts over |
| DedupWindow.OriginalsAreRecorded | services/dedup.py:130-136 | an original is recorded for new and rechained alerts and for no repeat |
| DedupWindow.RunKeepsYoung | services/dedup.py:75-110 | with a reuse window of two windows and the delay, in every run a chain spans at most the window and the delay |
| DedupWindow.OldLiveChainRechains | services/dedup.py:458-536 | an over-age chain that is still being hit always takes RECHAIN |
| DedupWindow.ReusesOnlyYoungChainsIff | services/dedup.py:458-536 | over all runs, REUSE is served only on chains within the window if and only if the reuse window is at least two windows and the delay |
| DedupWindow.OldChainIsReused | core/config/defaults.py:675-678 | below that, a run the configuration check admits reuses a chain two windows and the delay old |
| DedupWindow.OriginalsAreSpaced | services/dedup.py:458-536 | in every run, originals of one key are at least the window less the delay apart, so a storm creates boundedly many |
| DedupWindow.DatabaseFallbackNeverHits | services/dedup.py:431-455 | with Redis and the database in step, the database lookup is never what answers |
| DedupKeys.DefaultEventKeys | services/dedup.py:139-187 | the statements that fill the two dictionaries compute the alert hash and the default key of the specification |
| DedupKeys.ExtractFieldPath | services/dedup.py:237-253 | the hop loop with its early returns yields what the whole path leads to |
| DedupKeys.FingerprintDedupKey | services/dedup.py:256-270 | the loop keys on exactly the configured paths that lead somewhere, or gives none |
| DedupKeys.LabelIdentityDedupKey | services/dedup.py:315-349 | the loop keys on the first non-empty label map without the excluded labels, or gives none |
| DedupKeys.GenerateEventKeys | services/dedup.py:352-398 | the alert hash is the same under every mode and configuration, and shadow answers as off does |
| DedupKeys.IdentityExactly | services/dedup.py:149 | the identity holds exactly the non-null values of the payload's identity, stripped and in lower case, unless blank |
| DedupKeys.NoIdentity | services/dedup.py:149 | without an identity mapping there is no identity |
| DedupKeys.SameBuiltInKeyIff | services/dedup.py:157-180 | two alerts with identities and a source share the built-in key if and only if source, name, resource, fingerprint, risk bucket and namespace agree |
| DedupKeys.SameAlertHashIff | services/dedup.py:150-155 | two alerts with identities share the alert hash if and only if all fields agree, the source filled in and the namespace on top |
| DedupKeys.WholePayloadKeyIff | services/dedup.py:182-187 | without an identity the key is the hash, and shared if and only if payload, source and namespace agree |
| DedupKeys.LabelsAreFirst | services/dedup.py:278-343 | labels come from the first of the three places that holds a non-empty mapping |
| DedupKeys.NoLabelsAnywhere | services/dedup.py:340-349 | with no such mapping at the three places there are no labels |
| DedupKeys.OneMorePart | services/dedup.py:237-253 | a path goes on into dictionaries by name and lists by number, from the end when negative, and nowhere else |
| DedupKeys.ConfiguredKeyWins | services/dedup.py:380-398 | an enforced configuration is used where it finds something, named fields before excluded labels, else the default key |
| DedupKeys.SameKeyIffSameContent | services/dedup.py:139-398 | two alerts with a source share a dedup key if and only if derivation, source, namespace and identity components, configured values, remaining labels or payload agree |
| DedupKeys.NamespacesNeverMeet | services/dedup.py:139-398 | keys of different namespaces differ, whatever the derivations |
| DedupKeys.SeverityMattersIffNothingElse | services/dedup.py:150-180 | alerts that differ in severity alone share the built-in key if and only if some component is not blank |
| DedupKeys.AlertHashNamespaces | services/dedup.py:149-155 | alert hashes of one alert in two namespaces meet if and only if its identity names one of them and the other is absent |
| DedupKeys.SeverityAloneSplitsKeys | services/dedup.py:175-180 | two alerts with a severity and nothing else have different built-in keys |
| DedupKeys.OwnNamespaceMeetsOutside | services/dedup.py:150-155 | an identity with its own namespace has one alert hash inside that namespace and outside any |
| DedupKeys.SameValuesIff | services/dedup.py:256-270 | two payloads have the same configured values if and only if every configured path leads to the same value, or nowhere, in both |
| LiteStore.Store.InsertEvent | lite/store.py:132-149 | one event row is appended and its identifier returned; no other table changes |
| LiteStore.Store.EnqueueDelivery | lite/store.py:223-232 | one pending row, due at once, is appended; no other table changes |
| LiteStore.Store.MarkFailed | lite/store.py:248-262 | one row counts the attempt and is exhausted or due after the backoff; a missing row changes nothing |
| LitePipeline.MatchRules | lite/pipeline.py:150-164 | the loop collects the matching rules up to and including the first matching stop rule |
| LitePipeline.ApplyCooldown | lite/pipeline.py:132-147 | the loop splits the matched rules into those due and those still cooling |
| LitePipeline.Process | lite/pipeline.py:44-130 | every call returns the verdict of the gate chain and adds exactly one event, one decision and the deliveries of that verdict |
| LiteGates.JudgeExactly | lite/pipeline.py:69-129 | on the rows of the tables: exactly when an alert is a duplicate, silenced, unmatched or cooling, and to exactly which rules it otherwise goes |
| LiteGates.SilenceFound | lite/pipeline.py:80-86 | the silence reported is the first active one whose pattern occurs in the text |
| LiteGates.MatchedIffReached | lite/pipeline.py:150-164 | matched are exactly the enabled rules that take the alert behind no earlier rule that takes it and stops |
| LiteGates.ActiveOrder | lite/store.py:270-274 | rules are tried by descending priority, then in the order they were made |
| LiteGates.CoolsIffRecent | lite/store.py:159-173 | a rule cools if and only if the cooldown is on and a delivery of the identity under its name belongs to an alert within it |
| LiteGates.ProcessedRows | lite/pipeline.py:74-129 | the event, decision and outbox rows one alert adds, field by field |
| LiteGates.RecordedVerdict | lite/pipeline.py:74-129 | only an alert that reached the analysis keeps its importance; the decision names the due rules in order |
| LiteGates.StoppedByExactly | lite/pipeline.py:150-164 | the rule reported as stopping the scan is the one reached that stops |
| LiteGates.CooledExactly | lite/pipeline.py:132-147 | the names reported as cooling are exactly those of the matched rules that cool |
| LiteDelivery.DeliverOnce | lite/app.py:32-46 | the loop marks the rows of the pass one by one, and every due row with fewer than twenty due rows before it has one more attempt |
| LiteDelivery.PassTakesIff | lite/store.py:234-239 | a pass takes exactly the due rows with fewer than twenty due rows before them |
| LiteDelivery.PassMarks | lite/store.py:241-262 | each row taken counts one attempt, is sent, exhausted or due a backoff later as its send went; no other row changes |
| LiteDelivery.FreshRowIsDue | lite/store.py:223-232 | a new row is due at once, with four attempts, for its rule's name and address |
| LiteRuns.TraceIsAPath | lite/pipeline.py:44-130 | the recorded steps of every alert are a path of the gate automaton that ends with the decision's skip code |
| LiteRuns.LastStepDeterminesCode | lite/pipeline.py:44-130 | on every path of the automaton the last step alone determines the skip code |
| LiteRuns.ForwardedExactlyToDueRules | lite/pipeline.py:108-164 | a forwarded alert goes, in priority order, to exactly the enabled rules that match, come no later than the first matching stop rule and are not cooling |
| LiteRuns.DuplicateIff | lite/store.py:151-157 | an alert is a duplicate if and only if some event of its identity arrived within the window, duplicates included |
| LiteRuns.LongDedupWindowHidesCooldown | lite/settings.py:34-40 | with a dedup window at least the cooldown, no decision is `cooldown` |
| LiteRuns.CooldownCanFireIff | lite/settings.py:34-40 | some run has a `cooldown` decision if and only if the cooldown is positive and longer than the dedup window |
| LiteRuns.RunInv | lite/pipeline.py:44-130 | in every serial run each event has one decision, whose matched names are its outbox rows in order, and all outbox and pacing invariants hold |
| LiteRuns.DeliveriesKeepTheCooldown | lite/pipeline.py:132-147 | in every run, two deliveries of one identity under one rule name are a cooldown apart, from the earlier arrival to the later check, unless both belong to one event that was forwarded twice under the name |
| LitePacing.KeepsPaceIff | lite/pipeline.py:108-147 | under given rules, all such deliveries of all runs are a cooldown apart if and only if no alert is matched twice under one name |
| LitePacing.DistinctNamesSuffice | lite/store.py:270-291 | different names among the enabled rules are enough for that |
| LitePacing.SharedNameBreaksPace | lite/store.py:276-291 | two enabled rules of one name, which the table admits, break it with the first alert |
| LiteDelivery.DeliveredKeepsOutbox | lite/store.py:223-262 | a pass conserves rows, leaves finished ones alone, and lowers the sum of remaining attempts by at least one per row tried |
| LiteRuns.FinishedDeliveriesStay | lite/store.py:241-262 | along every run rows are never dropped or reassigned, and a sent or exhausted one never changes |
| LiteRuns.ExhaustedMeansSpacedFailures | lite/store.py:248-262 | an exhausted row failed exactly its budget of times, each at least the backoff after the last; a pending one has attempts left |
| CircuitBreaker.Breaker.SeeReply | core/circuit_breaker.py:110-126 | OPEN rejects and is never cached; CLOSED, and also a script that raised, admits and is cached from the moment it is seen |
| CircuitBreaker.CheckReadsWindow | core/redis_lua/circuit_breaker_check_state.lua:1-13 | the check answers OPEN exactly inside the window by the sender's clock, and closes the breaker once it is over |
| CircuitBreaker.OpenWhileWindowRuns | core/redis_lua/circuit_breaker_check_state.lua:1-13 | in every run an open breaker stays open while its window runs, whatever checks are made |
| CircuitBreaker.OpenBreakerRejects | core/circuit_breaker.py:75-82 | in every run, from min(3, recovery_timeout) and one reply latency after a trip until the window ends, no process admits a call |
| CircuitBreaker.ClosedReplyIsCached | core/circuit_breaker.py:81-124 | a CLOSED reply is trusted for min(3, recovery_timeout) from the moment it is seen, an OPEN one not at all |
| CircuitBreaker.NoAdmissionOnceNoticed | core/circuit_breaker.py:75-126 | in every run of any number of processes, no call is admitted later than cache TTL and reply latency after the breaker opened |
| CircuitBreaker.LateReplyExtendsTheLag | core/circuit_breaker.py:75-81 | with any latency there is a run that admits a call after the documented bound, with the open window still running |
| CircuitBreaker.LagsByTtlOnlyIff | core/circuit_breaker.py:75-81 | the documented bound holds for all runs if and only if the latency is zero |
| CircuitBreaker.FailureForcesReread | core/circuit_breaker.py:128-133 | after a failure with no CLOSED answer in flight, a process admits from its cache only after re-reading |
| CircuitBreaker.DropDefeatedIffAnswerInFlight | core/circuit_breaker.py:128-133 | at any point of any run, some continuation admits from the cache after the drop without a re-read if and only if a CLOSED answer is in flight |
| Compression.DecodeEncode | core/compression.py:33-69 | UTF-8 decoding inverts encoding for every string of Unicode scalar values |
| Compression.TextIsNotAFrame | core/compression.py:43-69 | no UTF-8 text starts with the zstd magic number |
| Compression.FromHexToHex | core/compression.py:53-61 | the textual form of a binary column reads back to the same bytes |
| Compression.PayloadRoundTrip | core/compression.py:33-103 | every non-empty text comes back, for any thresholds at write and read time, from the binary or the textual column, sync or async |
| Compression.StoredAsFrameIff | core/compression.py:33-40 | empty text is not stored, and other text is stored as a zstd frame if and only if its UTF-8 form reaches the threshold |
| Compression.BrokenPayloads | core/compression.py:43-69 | broken frames and broken hex give the placeholder, other text comes back as it is, sync and async alike |
| Compression.EncodingsAre | core/compression.py:33-40 | the UTF-8 form of one character of each length |
| Compression.StrayByte | core/compression.py:62-69 | a byte that starts no character is replaced and decoding goes on behind it |
| Compression.BrokenPair | core/compression.py:62-69 | so is the first byte of a pair whose second is missing |
| Compression.HexForms | core/compression.py:53-59 | hex text may hold blanks between pairs and digits in either case, and no lone digit |
| WebhookPayload.CopyJson | contracts/webhook_payload.py:116-128 | the rebuild loops return the plain copy, or the first defect in document order |
| WebhookPayload.ValidateJson | contracts/webhook_payload.py:131-151 | the walk returns the value itself, or the first defect in document order |
| WebhookPayload.CopyListOfMappings | contracts/webhook_payload.py:161-170 | the loop checks each item as an object under its index and returns the list, or the first defect |
| WebhookPayload.WebhookDataFromMapping | contracts/webhook_payload.py:173-231 | the field loop keeps every field, or fails on the first defect of all fields in document order, for both flags |
| WebhookPayload.AcceptedIff | contracts/webhook_payload.py:173-231 | accepted are exactly the mappings with string keys whose every field is acceptable for its declared kind |
| WebhookPayload.KindsOfFields | contracts/webhook_payload.py:74-113 | fields of the text and object kinds |
| WebhookPayload.KindsOfOtherFields | contracts/webhook_payload.py:104-113 | one field of each other kind, and a name that is not declared |
| WebhookPayload.BoundaryKeepsInput | contracts/webhook_payload.py:190-231 | an accepted input keeps its keys in order, and every field its meaning, or the value itself without copying; numbers become their doubles |
| WebhookPayload.DefectsAreGenuine | contracts/webhook_payload.py:116-151 | every defect reported for a value is in it, at the path reported |
| WebhookPayload.FieldDefectsAreGenuine | contracts/webhook_payload.py:154-231 | every defect reported for a field is there, at the field or item reported |
| WebhookPayload.RebuiltMeansTheSame | contracts/webhook_payload.py:116-128 | copying keeps the JSON meaning and leaves plain containers; it changes a value if and only if it held others |
| WebhookPayload.TwinsAgree | contracts/webhook_payload.py:173-231 | the twins fail together with the same defect at the same path, else mean the same, and are equal if and only if all containers are plain |
| WebhookPayload.TupleSplitsTwins | contracts/webhook_payload.py:126-127 | a tuple as the body makes the twins return different values |
| WebhookPayload.RevalidationKeeps | contracts/webhook_payload.py:173-231 | a result passes again with its meaning kept, and is unchanged if and only if no unplain checked container is now rebuilt |
| DnsCache.Resolver.EvictIfFull | core/url_security.py:36-50 | room is made; below the maximum nothing goes, expired entries go first, and live ones only when they alone fill the cache, soonest to expire first |
| DnsCache.Resolver.Lookup | core/url_security.py:130-140 | a live entry is a hit and stays; an expired one is dropped |
| DnsCache.Resolver.Store | core/url_security.py:142-153 | an entry stored meanwhile wins; otherwise the resolution is stored after eviction |
| DnsCache.NeverOverTheMaximum | core/url_security.py:36-50 | in every interleaving of resolutions the cache stays within its maximum |
| DnsCache.AnswersAreFresh | core/url_security.py:130-153 | every answer in every interleaving is a resolution of that host made less than the lifetime ago |
| Pagination.PageIsSlice | services/pagination.py:29-51 | the k-th window is the k-th slice of the table at the first request, while newer rows keep arriving |
| Pagination.OffsetPageIsSlice | services/pagination.py:38-51 | without a cursor, a page shows the rows behind those of the pages before it |
| Pagination.SweepVisitsEveryRowOnce | services/pagination.py:29-51 | following the cursor visits each row present at the start once, in order, and the first window without more is the last of max(1, ceil(n / size)) |

## Left out

- LeaseGate.StepKeepsLockInv: the lock, the counter and the workers are values and each Redis command is a step; aliasing of in-process objects plays no part. `GateProgram` has the loops and the `finally` of one call.
- DedupWindow.RunKeepsYoung: one key, resolve and remember in turn as the gate serialises them, Redis healthy, analyses reusable, processing delay below the window; Redis failures and degraded analyses are not modelled.
- DedupKeys.SameKeyIffSameContent: digest and canonical dump are taken to be injective; parsing of the two settings and the risk bucket of `services/analysis/resource_risk.py` are parameters.
- Json.LoadsAcceptsExactlyTheGrammar: the limits of orjson on nesting depth and the numeric value of numbers are not modelled; a number is its text.
- SessionActions.GetDbSession: a commit that raises inside the handler is a handler that raised; an action that registers another is not modelled.
- CacheProtocol.NoPreCommitRead: the loader is assumed to read committed state.
- LitePipeline.Process: for serial calls only, since the code takes no lock across its awaits; comma-separated rule fields and silence patterns are modelled after splitting and lower-casing; all deliveries of one alert are enqueued at one clock reading.
- LiteRuns.ExhaustedMeansSpacedFailures: the times of failures and of the cooldown check are columns of the model only.
- CircuitBreaker.NoAdmissionOnceNoticed: paths with Redis unavailable, which admit every call by design, and the counting of failures up to the threshold are not modelled; a trip may happen at any time.
- Compression.PayloadRoundTrip: zstd is any codec that inverts and writes its magic number; `bytes` input and the number of replacement characters for invalid UTF-8 are not modelled.
- WebhookPayload.TwinsAgree: values are finite trees; subclasses of `str`, `list` and numbers and the NaN float are not told apart, and paths are lists of segments, not their text.
- DnsCache.Resolver.EvictIfFull: which of several entries with equal expiry goes is left open, where the source's sort is stable.
- Pagination.PageIsSlice: rows are never deleted and new rows have higher identifiers.
- Routes, the MCP server, dashboards, authentication, logging, metrics, migrations and schemas: no algorithm to state a property of.
- LLM triage, HTTP delivery and card rendering: their results are inputs of the model.
- `contracts/deep_analysis_report.py`, the per-source adapters and the YAML specifications: field picking that would only add easy members.
- Signature checks, replay protection, URL policy and redaction are not part of this model.
