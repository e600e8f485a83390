# Verification of the lending platform's stateful cores

This project models the parts of the platform that keep shared state, and proves what they
guarantee over whole runs. Run `dafny verify dfyconfig.toml` to check everything.

| file | what it models |
|---|---|
| `SlidingWindow`, `SlidingWindowProofs`, `SlidingWindowExact`, `SlidingWindowWait` | the gateway's rate limiter: one Redis key, the Lua script command by command, and whole runs of it under clock skew and key expiry, with the wait it tells |
| `Gateway`, `GatewayRuns` | the route table, the limiter service with its fail-open path, the request pipeline, and the quotas of all buckets together |
| `RefreshTokens`, `RefreshTokensSerial`, `RefreshTokensInterleaved` | refresh-token rotation with reuse detection (section 4.14.2 of RFC 9700), with each call as one step, and with every read and commit apart |
| `LeadStatus`, `Leads`, `LeadsInterleaved`, `LeadEvents`, `LeadsSerial` | the lead's status graph, its audit history and its events, with reads, commits and sends apart, and with each request as one step |
| `Handoff` | the bank adapter on a channel that loses, repeats and delays events: bank decision, callback, applicant mails |
| `Cosine`, `SemanticCache`, `SemanticCacheProofs`, `SemanticCacheComplete` | the semantic cache on plain Redis and the similarity it ranks by |
| `Pagination` | the paginated list of leads |

The limiter service, the gateway middleware, the token, auth, leads, KYC, handoff,
notifications, semantic-cache and question-answering services, the Kafka consumer and the
stores they share are classes, whose methods follow the source statement by statement and
are proved equal to functions on the abstract state (`KeyAfter`, `Step`, `Commit`, `Lookup`,
...). The theorems are then about those functions over arbitrary runs. Deactivation belongs
to the users service in the code and stands beside the auth methods here.

Where a documented promise is not what the code does, the project keeps the code and gives
the exact condition under which the promise holds:

- The limiter's "for any 60-second window" holds exactly when all stamps keep one constant
  distance from Redis time (`AnyWindowIffNoSkew`). With skew of width d it holds for intervals
  up to length window - d and for no longer ones (`IntervalsHoldIffWithinSkew`), because a
  lagging request can miss accepts of its own window (`OwnWindowHeldIffNoSkew`).
- The cache's hits are younger than the TTL, except those stored with an old stamp between a
  lookup's prune and its list (`HitsAreLogged`, `LateStoreIsOldHit`).
- "The entire family is revoked" is final exactly when no rotation of that family is between
  its read and its commit (`StaysDeadIffQuiescent`). Two overlapping rotations can exchange
  one token twice (`OverlappingRotationsBothSucceed`), because the commit does not look at its
  row again: the chains survive a run exactly when every commit finds its row without a
  successor (`ChainsIffRechecked`), and finding it unrevoked would also keep every dead family
  dead (`RecheckingRevokedSuffices`).
- A deactivated user gets no refresh row exactly when none of their logins or rotations is
  between its check and its write (`DeactivatedGetNothingIffNothingComing`).
- A terminal status, and so the funding outcome a lead has, sticks with its history and its
  reason exactly when no change of the lead is between its read and its commit
  (`TerminalStaysIffNothingDecided`); otherwise both outcomes of a decision can be recorded
  (`BothDecisionsCommit`). All histories of a run are paths exactly when every commit finds
  the status that was read (`PathsIffRechecked`).
- What an outcome event or mail says lasts exactly when it is true now and every change still
  to commit agrees with it (`OutcomeEventLastsIff`, `OverlappedMailLastsIff`). With overlapping
  callbacks the last mail can say the opposite for good (`OverlapCanMislead`).
- The events of a lead mirror its history exactly when no send of it is lost or overtaken
  (`EventsMirrorHistoryIffOrderly`); sends are not awaited, so both happen (`EventsCanBeLost`,
  `EventsCanOvertake`). In any case every event has a row of its own (`EveryEventHasItsRow`).

## Assumptions

- Redis's LRU policy (`infra/redis/redis.conf:16-17`) evicts no limiter key; the limit of a
  bucket is constant; the run theorems need a positive window (the script is modelled for
  every window).
- Random identifiers (UUIDs, raw tokens, database ids) are new, and the token hash is
  injective, so a row is named by its raw token.
- Password checks, token verification, randomness, clocks, the network and the answer of the
  language model are parameters.
- A database transaction, a Redis script and a single Redis command are atomic.

## Model

The rows come in three groups. A *theorem* holds for every input, every run or every
interleaving. A *method* follows the source and is proved equal to functions on the abstract
state, or to what a caller gets. A *lemma* is about a single step or a table, and the theorems
rest on it.

| member | source | states |
|---|---|---|
| `SlidingWindowProofs.KeptByRuns` | apps/api-gateway/src/rate-limit/sliding-window-rate-limiter.service.ts:132-138 | **Theorem.** After every run, whatever the skew within its band and whenever Redis drops an expired key, the ZSET holds every accept stamped later than the front of the band less the window, and nothing that was not accepted; a lagging request may want older ones |
| `SlidingWindowProofs.OwnWindowHeldIffNoSkew` | apps/api-gateway/src/rate-limit/sliding-window-rate-limiter.service.ts:132-133 | **Theorem.** After all runs a request finds every accept of its own window still counted if and only if there is no skew, for every window and every limit from 1 |
| `SlidingWindowProofs.SkewLosesAccept` | apps/api-gateway/src/rate-limit/sliding-window-rate-limiter.service.ts:132-133 | **Theorem.** For every window, limit and positive skew, a concrete run prunes an accept that lies in the own window of the next, lagging request |
| `SlidingWindowProofs.Bound` | apps/api-gateway/src/rate-limit/sliding-window-rate-limiter.service.ts:22-38 | **Theorem.** Over all runs, with stamps within a band of width d of Redis time, any stamp interval of length window - d holds at most `limit` accepted requests |
| `SlidingWindowProofs.SkewBreaksWindow` | apps/api-gateway/src/rate-limit/sliding-window-rate-limiter.service.ts:125-147 | **Theorem.** For every window and every band of positive width, a concrete run accepts two requests in one window under a limit of one |
| `SlidingWindowProofs.AnyWindowIffNoSkew` | apps/api-gateway/src/rate-limit/sliding-window-rate-limiter.service.ts:27-29 | **Theorem.** The documented promise for any window holds for all limits if and only if there is no skew |
| `SlidingWindowProofs.SkewBreaksInterval` | apps/api-gateway/src/rate-limit/sliding-window-rate-limiter.service.ts:125-147 | **Theorem.** For every window, every positive skew and every interval longer than window - skew, a concrete run without any key expiry puts three accepts into one such interval under a limit of two |
| `SlidingWindowProofs.IntervalsHoldIffWithinSkew` | apps/api-gateway/src/rate-limit/sliding-window-rate-limiter.service.ts:22-38 | **Theorem.** Intervals of a given length hold at most `limit` accepts, for all limits and all runs, if and only if the length is at most window - skew (or the interval is empty): the bound is tight |
| `SlidingWindowExact.LogRefinement` | apps/api-gateway/src/rate-limit/sliding-window-rate-limiter.service.ts:132-146 | **Theorem.** While stamps never go back and no key expires before its stamps have left the window, however the delay varies, pruning and expiry are invisible: all three answers are those of a limiter that keeps every accept for ever |
| `SlidingWindowExact.RetryIsExact` | apps/api-gateway/src/rate-limit/sliding-window-rate-limiter.service.ts:139-145 | **Theorem.** While stamps keep pace (`Timely`), a denied request is told a wait in (0, window]; whatever comes before its end is denied as well, and the next request is admitted if and only if it comes at or after now + retryAfterMs |
| `SlidingWindowWait.WaitSuffices` | apps/api-gateway/src/rate-limit/sliding-window-rate-limiter.service.ts:139-145 | **Theorem.** With any clocks at all, after any run, a denied request that comes back at or after now + retryAfterMs is admitted, if nothing was accepted on its key in between |
| `SlidingWindowWait.RetryBound` | apps/api-gateway/src/rate-limit/sliding-window-rate-limiter.service.ts:139-145 | **Theorem.** After every run in a skew band of width d, the wait of a denied request is positive and at most window + d |
| `SlidingWindowExact.StaysAhead` | apps/api-gateway/src/rate-limit/sliding-window-rate-limiter.service.ts:125-147 | **Theorem.** While stamps keep pace (`Timely`), the limiter's i-th accept is never later than the i-th admission of any policy that keeps the quota |
| `SlidingWindowExact.GreedyIsOptimal` | apps/api-gateway/src/rate-limit/sliding-window-rate-limiter.service.ts:125-147 | **Theorem.** While stamps keep pace (`Timely`), at every point of every run it has admitted at least as many requests as any policy that keeps the quota in every window, even one that knows the future, while keeping it itself |
| `GatewayRuns.BucketsAreIndependent` | apps/api-gateway/src/proxy/gateway.middleware.ts:134-142 | **Theorem.** Over any mix of requests, each bucket's key evolves as if its own requests were the only ones |
| `GatewayRuns.PassedWithinQuota` | apps/api-gateway/src/proxy/gateway.middleware.ts:134-172 | **Theorem.** In any interval as long as the window less the skew, the gateway lets through at most `limit` requests of a bucket plus those Redis did not answer |
| `GatewayRuns.LoginsWithinQuota` | apps/api-gateway/src/proxy/gateway.middleware.ts:134-172 | **Theorem.** In any interval as long as the window less the skew, at most `authMaxRequests` requests to the prefix followed by "/auth/login" or "/auth/refresh" pass from one address, whoever is logged in, besides those Redis did not answer |
| `GatewayRuns.OthersWithinQuota` | apps/api-gateway/src/proxy/gateway.middleware.ts:134-172 | **Theorem.** And at most `generalMaxRequests` other requests, the health check apart, by one user from any address, or from one address when nobody is logged in |
| `GatewayRuns.WaitingIsEnough` | apps/api-gateway/src/proxy/gateway.middleware.ts:145-162 | **Theorem.** Over any mix of requests of all buckets and with any clocks at any replica, a client that is refused and returns after its Retry-After seconds (section 10.2.3 of RFC 9110) passes, unless somebody else was given a slot of its bucket in between |
| `GatewayRuns.RetryAfterIsEnough` | apps/api-gateway/src/proxy/gateway.middleware.ts:145-162 | **Theorem.** While the stamps of the bucket keep pace (`Timely`), nobody is given a slot before the exact wait is over, so such a client passes unless somebody else asks for its bucket between the exact wait and the return |
| `RefreshTokensSerial.RunKeepsInv` | apps/user-service/src/auth/token.service.ts:81-178 | **Theorem.** Every run of registrations, logins, rotations, logouts and deactivations keeps the invariant: families are chains, rows are known, exchanged tokens are distinct and superseded |
| `RefreshTokensSerial.FamiliesAreChains` | apps/user-service/src/auth/token.service.ts:81-156 | **Theorem.** In every reachable state each family's rows, all of one user, form one acyclic chain of `replacedByTokenHash` links in order of issue, ending in a single tip, and no two tokens of a family are live |
| `RefreshTokensSerial.DeadForever` | apps/user-service/src/auth/token.service.ts:104-163 | **Theorem.** A family without live rows never gets a row again in any run |
| `RefreshTokensSerial.ReuseKillsForever` | apps/user-service/src/auth/token.service.ts:29-38 | **Theorem.** In any run each token is presented in at most one successful rotation; presenting it again at any later point kills its family, and no continuation ever issues from that family |
| `RefreshTokensSerial.DeactivatedGetNothing` | apps/user-service/src/auth/auth.service.ts:62-64 | **Theorem.** Once a user is deactivated, no run creates a refresh row for them |
| `RefreshTokensSerial.IdleForever` | apps/user-service/src/auth/token.service.ts:121-123 | **Theorem.** A family whose rows have all expired is never refreshed again, as long as the clock does not go back |
| `RefreshTokensInterleaved.RevokedStays` | apps/user-service/src/auth/token.service.ts:133-178 | **Theorem.** Under every interleaving of reads, commits and crashes, `revoked` never goes back to false |
| `RefreshTokensInterleaved.GoneForever` | apps/user-service/src/auth/token.service.ts:104-163 | **Theorem.** A family with no live row and no rotation between its read and its commit stays dead and gains no row in every continuation |
| `RefreshTokensInterleaved.StaysDeadIffQuiescent` | apps/user-service/src/auth/token.service.ts:106-148 | **Theorem.** A dead family stays dead in every continuation if and only if no rotation of it is between read and commit |
| `RefreshTokensInterleaved.LogoutAllIsFinal` | apps/user-service/src/auth/token.service.ts:173-178 | **Theorem.** After logout-everywhere, each of the user's families without a pending rotation is dead in every continuation |
| `RefreshTokensInterleaved.DeactivatedGetNothingIffNothingComing` | apps/user-service/src/auth/token.service.ts:125-148 | **Theorem.** A deactivated user gets no row in any continuation if and only if none of their logins or rotations is past its check and before its write |
| `RefreshTokensInterleaved.OverlappingRotationsBothSucceed` | apps/user-service/src/auth/token.service.ts:106-148 | **Theorem.** A concrete run from the empty system in which one token is exchanged twice and its family has two live tokens |
| `RefreshTokensInterleaved.ChainsIffRechecked` | apps/user-service/src/auth/token.service.ts:133-148 | **Theorem.** Under every interleaving, the stored rows of all families form chains at the end if and only if every commit found the row it replaced without a successor; and then the whole serial invariant holds |
| `RefreshTokensInterleaved.RecheckingRevokedSuffices` | apps/user-service/src/auth/token.service.ts:133-148 | **Theorem.** Every interleaving in which each commit finds its row still unrevoked keeps the serial invariant, and no dead family ever gets a live row or a new one |
| `LeadsInterleaved.ProvenanceAlways` | apps/lead-service/src/leads/leads.service.ts:119-178 | **Theorem.** Under every interleaving each history row takes an edge its role may drive, from a status an earlier row entered; `status` is the last row's; score, reason and documents match the history |
| `LeadsInterleaved.FundedCameAllTheWay` | apps/lead-service/src/leads/state-machine/lead-status.state-machine.ts:10-53 | **Theorem.** Under every interleaving a lead ever funded has, in order, rows for all earlier stages, an approval by an underwriter or administrator, a document and a score |
| `LeadsInterleaved.TerminalStaysIffNothingDecided` | apps/lead-service/src/leads/leads.service.ts:128-167 | **Theorem.** A terminal status, so a first funding outcome, stays in every continuation with its history and reason if and only if no change of the lead is between its read and its commit |
| `LeadsInterleaved.StatusLastsIff` | apps/lead-service/src/leads/leads.service.ts:128-167 | **Theorem.** A lead has a given terminal status in every continuation if and only if it has it now and every change of it between its read and its commit goes there too |
| `LeadsInterleaved.CommitStoresItsRequest` | apps/lead-service/src/leads/leads.service.ts:128-167 | **Theorem.** Whatever happens between an accepted read and its commit, the commit stores that request's status, its own draw for a credit check, its own reason for a refusal, and a row with its user, its role and the status it read; everything else of the lead and every other lead stays |
| `LeadsInterleaved.FieldsKept` | apps/lead-service/src/leads/leads.service.ts:142-163 | **Theorem.** Over every run and every interleaving, a lead keeps its score and its reason unless a commit of it brings another |
| `LeadEvents.EveryEventHasItsRow` | apps/lead-service/src/leads/leads.service.ts:162-175 | **Theorem.** Under every interleaving, with sends that fail or overtake each other, each published event is that of a history row of its lead with the same statuses and owner, and no row is published twice |
| `LeadEvents.EventsMirrorHistoryIffOrderly` | apps/lead-service/src/leads/leads.service.ts:25-44 | **Theorem.** After any run, the events of a lead are its rows one for one and in order if and only if none of its sends was lost, none overtook another and none is still to come |
| `LeadEvents.EventsCanBeLost` | apps/lead-service/src/leads/leads.service.ts:25-44 | **Theorem.** A concrete run leaves a row without an event for ever |
| `LeadEvents.EventsCanOvertake` | apps/lead-service/src/leads/leads.service.ts:162-175 | **Theorem.** A concrete run publishes a later row's event first, although its only commit finds the status that was read |
| `LeadEvents.OutcomeEventLastsIff` | apps/lead-service/src/leads/leads.service.ts:153-178 | **Theorem.** Under every interleaving, a published event of a terminal status names its lead's status in every continuation if and only if it names it now and every change still to commit goes to that status |
| `LeadEvents.LastEventCanMislead` | apps/lead-service/src/leads/leads.service.ts:153-178 | **Theorem.** From any lead in BANK_HANDOFF, a concrete overlap of two callbacks ends with nothing pending and the lead rejected for good, while the last published event says it was funded |
| `LeadEvents.BankHandoffEventHasScore` | apps/lead-service/src/leads/leads.service.ts:133-150 | **Theorem.** Under every interleaving, whoever reads a lead after its BANK_HANDOFF event was published finds a score from 550 to 799 |
| `LeadsSerial.HistoryReplays` | apps/lead-service/src/leads/leads.service.ts:153-178 | **Theorem.** With each request and its send as one step, every history replays to the current status, climbs one rank a row, has at most six rows, and equals the published events |
| `LeadsSerial.TerminalForever` | apps/lead-service/src/leads/state-machine/lead-status.state-machine.ts:36-38 | **Theorem.** A terminal status, its history and its reason never change in any run |
| `LeadsSerial.ScoreStaysForever` | apps/lead-service/src/leads/leads.service.ts:142-145 | **Theorem.** In every run, a lead that has been credit-checked keeps its score |
| `LeadsSerial.BothDecisionsCommit` | apps/lead-service/src/leads/leads.service.ts:128-167 | **Theorem.** From any lead in CREDIT_CHECKED or BANK_HANDOFF, a concrete overlap records both outcomes, across an edge the graph does not have |
| `LeadsSerial.PathsIffRechecked` | apps/lead-service/src/leads/leads.service.ts:162-167 | **Theorem.** Under every interleaving, all histories are paths at the end if and only if every commit found the status its request had read |
| `HandoffProofs.FirstOutcomeSticks` | apps/banking-adapter-mock/src/handoff/handoff.service.ts:42-58 | **Theorem.** Whatever the channel loses, repeats or delays and whichever handoffs crash, a lead gets at most one funding outcome and the first one stays in every continuation |
| `HandoffProofs.CallBackIsDue` | apps/banking-adapter-mock/src/handoff/handoff.service.ts:45-55 | **Theorem.** Every callback is for a lead that reached BANK_HANDOFF, is decided on a real score, and is accepted if and only if the lead is still there; otherwise the lead already has its outcome |
| `HandoffProofs.MailsAreTrueForever` | apps/banking-adapter-mock/src/notifications/notifications.service.ts:41-101 | **Theorem.** Every mail goes to the owner of a lead that entered the status it reports; a refusal or funding mail names the lead's status in every continuation, and a refusal quotes the lead's lasting reason |
| `HandoffProofs.DeliveredOutcomeIsMailed` | apps/banking-adapter-mock/src/notifications/notifications.service.ts:14-61 | **Theorem.** In every run, delivering an APPROVED, DECLINED, FUNDED or FUNDING_REJECTED event and then, after anything else, sending adds exactly one mail, which names that status, goes to the lead's owner and quotes a refusal's reason |
| `HandoffProofs.DeliveredHandoffIsRead` | apps/banking-adapter-mock/src/kafka/consumers/lead-status.consumer.ts:50-57 | **Theorem.** In every run, delivering a BANK_HANDOFF event starts a handoff that can read the lead, finds a score, and can then call back |
| `HandoffProofs.CallBackSettles` | apps/banking-adapter-mock/src/handoff/handoff.service.ts:49-55 | **Theorem.** In every run, a callback settles a lead that has not moved on, funded exactly on the draws of its score band and otherwise rejected with a reason, and changes nothing of one that has |
| `HandoffProofs.OverlappedMailLastsIff` | apps/banking-adapter-mock/src/notifications/notifications.service.ts:63-95 | **Theorem.** Under every interleaving, the mail composed for a published outcome event goes to the lead's owner, and its outcome is the lead's status in every continuation if and only if it is so now and every change still to commit goes there too |
| `HandoffProofs.OverlapCanMislead` | apps/banking-adapter-mock/src/notifications/notifications.service.ts:63-75 | **Theorem.** From any lead in BANK_HANDOFF, a concrete overlap leaves the lead rejected for good, with nothing pending, while the last published event makes the adapter mail its applicant that it was funded |
| `Cosine.CauchySchwarz` | apps/ai-orchestrator/src/tier1-qa/semantic-cache/redis-semantic-cache.service.ts:26-30 | **Theorem.** The squared inner product is at most the product of the squared norms, for all vectors of equal length |
| `Cosine.InRange` | apps/ai-orchestrator/src/tier1-qa/semantic-cache/redis-semantic-cache.service.ts:20-34 | **Theorem.** Every similarity lies in [-1, 1] |
| `Cosine.Symmetric` | apps/ai-orchestrator/src/tier1-qa/semantic-cache/redis-semantic-cache.service.ts:20-34 | **Theorem.** The similarity of two vectors does not depend on their order |
| `Cosine.SelfSimilarity` | apps/ai-orchestrator/src/tier1-qa/semantic-cache/redis-semantic-cache.service.ts:31-33 | **Theorem.** A vector has similarity 1 with itself, or 0 if it has no nonzero component |
| `Cosine.ScaleInvariant` | apps/ai-orchestrator/src/tier1-qa/semantic-cache/redis-semantic-cache.service.ts:20-34 | **Theorem.** Multiplying a vector by a positive number changes no similarity |
| `Cosine.SimilarityIsCosine` | apps/ai-orchestrator/src/tier1-qa/semantic-cache/redis-semantic-cache.service.ts:20-34 | **Theorem.** The similarity times the product of the two lengths is the inner product; it is 0 for different lengths and for zero vectors |
| `Cosine.DotIsSum` | apps/ai-orchestrator/src/tier1-qa/semantic-cache/redis-semantic-cache.service.ts:26-30 | **Theorem.** The inner product of single numbers is their product, and it adds up over concatenation: together its definition |
| `SemanticCacheProofs.HitsAreLogged` | apps/ai-orchestrator/src/tier1-qa/semantic-cache/redis-semantic-cache.service.ts:88-128 | **Theorem.** Whatever other requests do between a lookup's commands and whatever is lost at any time, a hit is an answer stored in this namespace with score at least the threshold; it is younger than the TTL, or was itself stored between the lookup's prune and its list |
| `SemanticCacheProofs.HitsAreSound` | apps/ai-orchestrator/src/tier1-qa/semantic-cache/redis-semantic-cache.service.ts:88-128 | **Theorem.** If every store executed between a lookup's prune and its list is stamped after the cutoff, then, whatever else other requests do and whatever is lost, a hit is an answer stored in this namespace, younger than the TTL, with score at least the threshold |
| `SemanticCacheProofs.LateStoreIsOldHit` | apps/ai-orchestrator/src/tier1-qa/semantic-cache/redis-semantic-cache.service.ts:90-94 | **Theorem.** A store that is executed there with a stamp older than the cutoff, as when it was held up, is a hit older than the TTL |
| `SemanticCacheComplete.CompleteAlways` | apps/ai-orchestrator/src/tier1-qa/semantic-cache/redis-semantic-cache.service.ts:88-139 | **Theorem.** Without eviction, every run of stores, lookups and expiries keeps every live store in the index and readable, and the index sorted; healing removes no live entry |
| `SemanticCacheComplete.CacheIsList` | apps/ai-orchestrator/src/tier1-qa/semantic-cache/redis-semantic-cache.service.ts:88-139 | **Theorem.** From an empty cache, after any run, a lookup returns the best of the newest `Cap` live stores, the newest among equals, and misses if and only if none of them reaches the threshold |
| `SemanticCacheComplete.AskingAgainHits` | apps/ai-orchestrator/src/tier1-qa/qa.service.ts:57-84 | **Theorem.** For thresholds up to 1, asking again within the TTL, while the entry is among the newest `Cap` live ones, is a hit and never reaches the model |
| `Pagination.PagesPartition` | apps/lead-service/src/leads/leads.service.ts:97-116 | **Theorem.** Pages 1 to totalPages concatenate to the whole list without gap or repeat, none of them is empty unless the list is, and every later page is empty |
| `Pagination.EveryPageTogether` | apps/lead-service/src/leads/leads.service.ts:97-116 | **Theorem.** All pages of `List` together show the selected rows, each exactly once and in order |
| `Pagination.PagesShowOnlyAsked` | apps/lead-service/src/leads/leads.service.ts:98-101 | **Theorem.** No page shows a row of another user or another status than was asked for |
| `Pagination.AskedRowsAreShown` | apps/lead-service/src/leads/leads.service.ts:97-116 | **Theorem.** Every row of the asked user and status is on one of the pages |
| `SlidingWindow.Redis.SlidingWindowLua` | apps/api-gateway/src/rate-limit/sliding-window-rate-limiter.service.ts:125-147 | **Method.** The command-by-command script, lazy expiry included, leaves `KeyAfter` in its key, answers `Answer`, and touches no other key, for every window and limit, positive or not |
| `RateLimiter.SlidingWindowRateLimiterService.Consume` | apps/api-gateway/src/rate-limit/sliding-window-rate-limiter.service.ts:67-97 | **Method.** Redis's answer if it came in time, otherwise open with the full quota; an unanswered command may still have run and only touches the bucket's own key |
| `Gateway.GatewayMiddleware.Use` | apps/api-gateway/src/proxy/gateway.middleware.ts:107-172 | **Method.** 404 if and only if there is no route; nothing is counted for those and for the health check; every other request passes if and only if the decision on its own bucket allows it; a denial carries the least number of whole seconds that covers the wait; what passes goes to its route with its query kept |
| `RefreshTokens.TokenService.IssueTokenPair` | apps/user-service/src/auth/token.service.ts:81-102 | **Method.** Adds exactly one unrevoked row that expires one TTL later |
| `RefreshTokens.TokenService.RotateRefreshToken` | apps/user-service/src/auth/token.service.ts:104-156 | **Method.** The four refusals in the code's order with their effects, and otherwise the two writes of the transaction, equal the step `Refresh` |
| `RefreshTokens.TokenService.RevokeFamilyRows` | apps/user-service/src/auth/token.service.ts:158-163 | **Method.** Revoking only the unrevoked rows of a family leaves the table as revoking all of them would |
| `RefreshTokens.TokenService.Revoke` | apps/user-service/src/auth/token.service.ts:165-171 | **Method.** Revokes that row and no other; an unknown token is no error |
| `RefreshTokens.TokenService.RevokeAll` | apps/user-service/src/auth/token.service.ts:173-178 | **Method.** Revokes the rows of that user and no others |
| `RefreshTokens.AuthService.RegisterUser` | apps/user-service/src/auth/auth.service.ts:19-52 | **Method.** A taken e-mail address is a conflict without a write; otherwise an active user and the first row of a new family |
| `RefreshTokens.AuthService.LoginUser` | apps/user-service/src/auth/auth.service.ts:54-76 | **Method.** Unknown user, disabled account and wrong password are refused in that order without a write; otherwise one new family is issued |
| `RefreshTokens.AuthService.DeactivateUser` | apps/user-service/src/users/users.service.ts:79-82 | **Method.** An unknown user is reported; otherwise only that user's `isActive` changes |
| `Leads.LeadsService.CreateLead` | apps/lead-service/src/leads/leads.service.ts:52-74 | **Method.** Creates the lead with its first history row and publishes one event |
| `Leads.LeadsService.Transition` | apps/lead-service/src/leads/leads.service.ts:153-178 | **Method.** Writes by id the new status and `extra`, appends the row with the status that was read, publishes one event for the owner |
| `Leads.LeadsService.MarkUploaded` | apps/lead-service/src/leads/leads.service.ts:118-126 | **Method.** An unknown lead is reported; a CREATED lead is moved and any other left alone |
| `Leads.LeadsService.Update` | apps/lead-service/src/leads/leads.service.ts:128-151 | **Method.** The errors in the code's order without a write, otherwise the transition with score and reason |
| `Leads.KycService.UploadKyc` | apps/lead-service/src/kyc/kyc.service.ts:47-74 | **Method.** Unknown lead, foreign lead and bad file are refused without a write; otherwise one document is added and the lead leaves CREATED |
| `Handoff.HandoffService.ProcessHandoff` | apps/banking-adapter-mock/src/handoff/handoff.service.ts:42-58 | **Method.** Without interference, reading, deciding and calling back is the call-back step on the score that was read; an unknown lead changes nothing |
| `Handoff.NotificationsService.Notify` | apps/banking-adapter-mock/src/notifications/notifications.service.ts:45-101 | **Method.** For the four outcome statuses, one mail to the applicant, with the looked-up reason for the two refusals; it fails, and sends nothing, if the user, the lead of a refusal or the mail server is missing; it does nothing for other statuses |
| `Handoff.LeadStatusConsumer.EachMessage` | apps/banking-adapter-mock/src/kafka/consumers/lead-status.consumer.ts:39-66 | **Method.** For each status by name: a message that does not parse or whose mail fails is given up to the dead-letter topic once, a handoff is started and not awaited, an approval, decline, funding or funding rejection is mailed, and the other statuses have no effect |
| `Cosine.CosineSimilarity` | apps/ai-orchestrator/src/tier1-qa/semantic-cache/redis-semantic-cache.service.ts:20-34 | **Method.** The three-accumulator loop computes dot / (norm * norm) over recursively defined inner products, and 0 in the degenerate cases |
| `SemanticCache.RedisSemanticCacheService.ScanCandidates` | apps/ai-orchestrator/src/tier1-qa/semantic-cache/redis-semantic-cache.service.ts:99-112 | **Method.** The scan with its two mutable accumulators computes `BestOf` and `StaleIds` |
| `SemanticCache.RedisSemanticCacheService.LookupBest` | apps/ai-orchestrator/src/tier1-qa/semantic-cache/redis-semantic-cache.service.ts:88-128 | **Method.** Prune, list, fetch, scan and heal leave `AfterLookup`, answer `Lookup`, and touch no other namespace |
| `SemanticCache.RedisSemanticCacheService.StoreAnswer` | apps/ai-orchestrator/src/tier1-qa/semantic-cache/redis-semantic-cache.service.ts:130-139 | **Method.** Adds the entry with its expiry and its index member in one step, in its own namespace only |
| `SemanticCache.QaService.Ask` | apps/ai-orchestrator/src/tier1-qa/qa.service.ts:57-84 | **Method.** A hit is answered from the cache and stores nothing; a miss answers from the model and stores that answer under the question's own embedding |
| `Pagination.List` | apps/lead-service/src/leads/leads.service.ts:97-116 | **Method.** The page holds, in order, the rows at the page's positions of selected rows, at most `pageSize`; total is the number of selected rows |
| `SlidingWindowExact.CountSandwich` | apps/api-gateway/src/rate-limit/sliding-window-rate-limiter.service.ts:132-133 | **Lemma.** Under skew, the count Redis takes lies between the accepts above the cutoff and those of the request's own window |
| `SlidingWindowProofs.ScriptCounts` | apps/api-gateway/src/rate-limit/sliding-window-rate-limiter.service.ts:132-133 | **Lemma.** One execution counts exactly the members of an unexpired key whose scores lie within the window |
| `SlidingWindowProofs.ScriptAdmits` | apps/api-gateway/src/rate-limit/sliding-window-rate-limiter.service.ts:135-138 | **Lemma.** With room it adds the request, renews the expiry to one window from now, and answers what remains |
| `SlidingWindowProofs.ScriptRefuses` | apps/api-gateway/src/rate-limit/sliding-window-rate-limiter.service.ts:139-145 | **Lemma.** Without room it adds nothing, keeps the expiry, and tells when the oldest counted member leaves |
| `SlidingWindowProofs.NoWindowNoMemory` | apps/api-gateway/src/rate-limit/sliding-window-rate-limiter.service.ts:132-138 | **Lemma.** A window that is not positive remembers nothing: every request is admitted if the limit is at least 1, and none otherwise |
| `SlidingWindowExact.ConstantDelayIsTimely` | apps/api-gateway/src/rate-limit/sliding-window-rate-limiter.service.ts:69-77 | **Lemma.** Stamps at a constant distance from Redis time are one case of `Timely`: stamps never go back, and move on by a window whenever Redis time does |
| `SlidingWindowExact.DeniedIffWindowFull` | apps/api-gateway/src/rate-limit/sliding-window-rate-limiter.service.ts:135-140 | **Lemma.** While stamps keep pace (`Timely`), a request is denied if and only if the limit-th accept from the end is still within the window |
| `SlidingWindowExact.RetryTarget` | apps/api-gateway/src/rate-limit/sliding-window-rate-limiter.service.ts:140-145 | **Lemma.** While stamps keep pace (`Timely`), a denied request is told a wait in (0, window] that ends when the limit-th accept from the end leaves the window |
| `SlidingWindowExact.DeniedUntilRetry` | apps/api-gateway/src/rate-limit/sliding-window-rate-limiter.service.ts:139-145 | **Lemma.** While stamps keep pace (`Timely`), any number of requests before that moment are all denied and change nothing in the accept log |
| `RouteTable.BasesAreExclusive` | apps/api-gateway/src/proxy/route-table.ts:13-21 | **Lemma.** No path lies under two route bases, nor is the health check under any |
| `RouteTable.RouteIsThatOfItsBase` | apps/api-gateway/src/proxy/route-table.ts:13-21 | **Lemma.** The order of the tests is irrelevant, and a path has no route if and only if it is under no base and is not the health check |
| `RouteTable.RoutesAre` | apps/api-gateway/src/proxy/route-table.ts:13-21 | **Lemma.** Exactly which paths go to each service, written out |
| `RouteTable.StripInvertsPrefix` | apps/api-gateway/src/proxy/route-table.ts:28-39 | **Lemma.** Stripping undoes prefixing for every path that starts with a slash and every prefix |
| `RouteTable.StripLeavesOthers` | apps/api-gateway/src/proxy/route-table.ts:35-39 | **Lemma.** The prefix alone becomes the root, and a path without the prefix passes unchanged |
| `RateLimiter.KeysAreInjective` | apps/api-gateway/src/rate-limit/sliding-window-rate-limiter.service.ts:64-68 | **Lemma.** Two (scope, identity) pairs share a Redis key only if they are equal, whatever the identity contains |
| `Gateway.SharedQuotas` | apps/api-gateway/src/proxy/gateway.middleware.ts:134-142 | **Lemma.** Exactly which requests share a key: on the login and refresh paths those of one address; elsewhere those of one user, anonymous ones of one address, and a user with an anonymous one only if the user id reads like that address; absent addresses count as "unknown"; the scopes never share |
| `Gateway.GuardOfPath` | apps/api-gateway/src/proxy/gateway.middleware.ts:134-146 | **Lemma.** For every path below the prefix, written out: which are counted, under which Redis key, and against which of the two settings |
| `GatewayRuns.WholeSecondsSuffice` | apps/api-gateway/src/proxy/gateway.middleware.ts:147-149 | **Lemma.** On one key, with any clocks, whole seconds that cover a denied request's wait are long enough if nobody was accepted meanwhile; while stamps keep pace they are less than a second more than a window |
| `RefreshTokensSerial.ChainsOnlyGrow` | apps/user-service/src/auth/token.service.ts:129-148 | **Lemma.** A family's chain keeps its first row, and grows by one token exactly on a successful rotation of that family |
| `RefreshTokensSerial.EveryRowIsEarned` | apps/user-service/src/auth/token.service.ts:81-156 | **Lemma.** No step changes a row's user, family or expiry or makes it unrevoked; a new row expires one TTL later, belongs to an active user, and either opens a new family by a registration or a login with the right password, or replaces an unrevoked, unexpired token of its own family and user |
| `RefreshTokensSerial.LoginIssuesIff` | apps/user-service/src/auth/auth.service.ts:54-76 | **Lemma.** A login issues if and only if the account exists, is active and the password matches; it then adds one live row of that user in a new family, and otherwise nothing; "account disabled" exactly for a disabled account |
| `RefreshTokensSerial.RegistrationIssuesIff` | apps/user-service/src/auth/auth.service.ts:19-52 | **Lemma.** A registration issues if and only if the address is free, and otherwise is a conflict that changes nothing |
| `RefreshTokensSerial.RotationIssuesIff` | apps/user-service/src/auth/token.service.ts:104-163 | **Lemma.** Which of the five answers a rotation gives, on the stored row, the clock and the user; and which rows it writes for each |
| `RefreshTokensSerial.ClosingWritesOnly` | apps/user-service/src/auth/token.service.ts:165-178 | **Lemma.** Exactly which rows a logout and a logout-everywhere revoke, and that a deactivation writes one `isActive` and no row |
| `RefreshTokensSerial.ReuseKillsFamily` | apps/user-service/src/auth/token.service.ts:115-119 | **Lemma.** Presenting an exchanged token is refused as reuse, leaves no live row in its family and changes no other family |
| `RefreshTokensSerial.LogoutEndsItsSessions` | apps/user-service/src/auth/token.service.ts:165-178 | **Lemma.** After a logout or logout-everywhere, exactly the tokens concerned are answered as reuse and every other token as before |
| `RefreshTokensSerial.DeactivationRefusesItsUser` | apps/user-service/src/auth/token.service.ts:125-127 | **Lemma.** Deactivation turns exactly what would have been issued to that user into "account disabled" |
| `RefreshTokensSerial.IssuingMovesOneSession` | apps/user-service/src/auth/token.service.ts:104-156 | **Lemma.** After a login, registration or rotation the new token works for one TTL, the presented one is reuse, and every other token is answered as before, unless the call was a reuse, which ends exactly its family |
| `RefreshTokensInterleaved.CommitKeepsChainsIffTip` | apps/user-service/src/auth/token.service.ts:133-148 | **Lemma.** A commit keeps all families chains if and only if the row it replaces still has no successor |
| `RefreshTokensInterleaved.RotationAlone` | apps/user-service/src/auth/token.service.ts:104-156 | **Lemma.** A read followed at once by its write is the serial rotation |
| `RefreshTokensInterleaved.LoginAlone` | apps/user-service/src/auth/auth.service.ts:54-76 | **Lemma.** The same for logins |
| `RefreshTokensInterleaved.RegistrationAlone` | apps/user-service/src/auth/auth.service.ts:19-52 | **Lemma.** The same for registrations |
| `RefreshTokensInterleaved.WritesAlone` | apps/user-service/src/auth/token.service.ts:165-178 | **Lemma.** Logouts and deactivations are one write in both models |
| `LeadStatus.EdgesClimb` | apps/lead-service/src/leads/state-machine/lead-status.state-machine.ts:10-33 | **Lemma.** Every edge climbs one rank, so the graph has no cycle; the upload edge is the only one no role may drive |
| `LeadStatus.OneWayIn` | apps/lead-service/src/leads/state-machine/lead-status.state-machine.ts:10-19 | **Lemma.** Every status is entered from one status only |
| `LeadsSerial.WhoMayMove` | apps/lead-service/src/leads/state-machine/lead-status.state-machine.ts:10-53 | **Lemma.** Exactly which requests are accepted, edge by edge and role by role, with a reason for the two refusals; and which error each other request gets |
| `LeadsSerial.WhoMayUpload` | apps/lead-service/src/kyc/kyc.service.ts:53-55 | **Lemma.** A valid file is accepted from the owner and from every role but other applicants; and which error is given otherwise |
| `LeadsInterleaved.ScoreInRange` | apps/lead-service/src/leads/leads.service.ts:144 | **Lemma.** The mock score lies between 550 and 799 for every draw |
| `LeadsInterleaved.EachScoreIsDrawn` | apps/lead-service/src/leads/leads.service.ts:144 | **Lemma.** Each score from 550 to 799 is drawn on an interval of the same length |
| `LeadsInterleaved.OnlyCommitsChange` | apps/lead-service/src/leads/leads.service.ts:162-167 | **Lemma.** No move changes a lead but its own commits and documents, and a commit changes the score or the reason only if it brings one |
| `LeadsInterleaved.ReadIsAccepted` | apps/lead-service/src/leads/leads.service.ts:128-136 | **Lemma.** An overlapping read is accepted exactly when the serial request would be, and writes nothing |
| `LeadsInterleaved.MoveKeepsInv` | apps/lead-service/src/leads/leads.service.ts:119-178 | **Lemma.** Every read, commit, upload, publication and crash keeps provenance and field invariants of all leads and of all pending requests |
| `LeadsSerial.PathIffReplays` | apps/lead-service/prisma/schema.prisma:81-84 | **Lemma.** A history is a path from CREATED if and only if replaying it succeeds, and then replay gives its last status |
| `LeadsSerial.RequestsAreAllOrNothing` | apps/lead-service/src/leads/leads.service.ts:128-178 | **Lemma.** A refused request changes nothing, no request changes another lead, and an accepted one makes exactly the permitted change, recorded with its user and the status before |
| `LeadsSerial.RequestsStore` | apps/lead-service/src/leads/leads.service.ts:52-178 | **Lemma.** The whole stored effect of each accepted request, field by field |
| `LeadsSerial.UpdateAlone` | apps/lead-service/src/leads/leads.service.ts:128-178 | **Lemma.** A read followed at once by its commit and its send is the serial update |
| `LeadsSerial.UploadAlone` | apps/lead-service/src/kyc/kyc.service.ts:47-74 | **Lemma.** The same for uploads |
| `LeadsSerial.CreateAlone` | apps/lead-service/src/leads/leads.service.ts:52-74 | **Lemma.** The same for creations |
| `LeadsSerial.CommitKeepsPathIffUnmoved` | apps/lead-service/src/leads/leads.service.ts:162-167 | **Lemma.** A commit keeps the history a path if and only if the status is still the one that was read |
| `LeadsSerial.PathEventsTellRows` | apps/lead-service/src/leads/leads.service.ts:162-175 | **Lemma.** On a path, the events equal the rows as values if and only if they were published once each and in the order of the rows |
| `Handoff.HigherScoresFundMore` | apps/banking-adapter-mock/src/handoff/funding-decision.ts:3-26 | **Lemma.** For the same draw a higher score never loses the funding, a missing score is never funded, and every rejection carries the reason the lead service requires |
| `Handoff.FundedOnTheseDraws` | apps/banking-adapter-mock/src/handoff/funding-decision.ts:11-26 | **Lemma.** The exact draws on which each score band is funded, and the answer without a score |
| `Handoff.RejectionQuotesScore` | apps/banking-adapter-mock/src/handoff/funding-decision.ts:22-25 | **Lemma.** A rejection's reason, with the three digits of the score |
| `HandoffProofs.ActKeepsInv` | apps/banking-adapter-mock/src/kafka/consumers/lead-status.consumer.ts:38-67 | **Lemma.** Every request, delivery, read, callback, mail and loss keeps: background work is about leads that reached the status it is about, and sent mails are true |
| `HandoffProofs.EventIsTrue` | apps/banking-adapter-mock/src/kafka/consumers/lead-status.consumer.ts:43-60 | **Lemma.** Whenever it is delivered, an event names a status its lead has entered and the lead's owner |
| `HandoffProofs.OtherDeliveriesDoNothing` | apps/banking-adapter-mock/src/kafka/consumers/lead-status.consumer.ts:50-60 | **Lemma.** Delivering any other event changes nothing |
| `SemanticCache.CacheKeysAreInjective` | apps/ai-orchestrator/src/tier1-qa/semantic-cache/redis-semantic-cache.service.ts:79-85 | **Lemma.** Index and entry names are injective in namespace and UUID, whatever the namespace contains, and no index name is an entry name |
| `SemanticCacheProofs.BestIsArgmax` | apps/ai-orchestrator/src/tier1-qa/semantic-cache/redis-semantic-cache.service.ts:99-112 | **Lemma.** The scan finds nothing if and only if nothing was fetched, and otherwise the first entry with the best score |
| `SemanticCacheProofs.IndexIsHealed` | apps/ai-orchestrator/src/tier1-qa/semantic-cache/redis-semantic-cache.service.ts:90-116 | **Lemma.** After a lookup the index holds exactly its members younger than the TTL, less the listed ones whose entry is gone |
| `SemanticCacheProofs.LookupAlone` | apps/ai-orchestrator/src/tier1-qa/semantic-cache/redis-semantic-cache.service.ts:88-128 | **Lemma.** Without interference the interleaved lookup is the lookup of the service |
| `SemanticCacheComplete.LookupIsListAnswer` | apps/ai-orchestrator/src/tier1-qa/semantic-cache/redis-semantic-cache.service.ts:88-128 | **Lemma.** In any such state a lookup answers as the plain list of stores does |
| `SemanticCacheComplete.CandidatesAreConsidered` | apps/ai-orchestrator/src/tier1-qa/semantic-cache/redis-semantic-cache.service.ts:90-94 | **Lemma.** The listed candidates are exactly the live stores with fewer than `Cap` newer live ones, where `Cap` is `maxCandidates`, or follows Redis's end-relative range when that is not positive |
| `SemanticCacheComplete.FewAreAllConsidered` | apps/ai-orchestrator/src/tier1-qa/semantic-cache/redis-semantic-cache.service.ts:94 | **Lemma.** With at most `maxCandidates` live stores, or with the setting 0, every live store is considered |
| `Pagination.FilterKeepsSelected` | apps/lead-service/src/leads/leads.service.ts:98-101 | **Lemma.** The filter keeps each selected row once, in its place, and nothing else |
| `Pagination.TotalPagesIsLeast` | apps/lead-service/src/leads/leads.service.ts:114 | **Lemma.** The page count is the least, and at least one, whose pages hold all selected rows |

## Left out

- HandoffProofs.FirstOutcomeSticks: each call to the lead service is one step; when calls overlap, the outcome a lead has sticks exactly under the condition of `LeadsInterleaved.TerminalStaysIffNothingDecided`.
- HandoffProofs.CallBackIsDue: each call to the lead service is one step, as above.
- HandoffProofs.MailsAreTrueForever: each call to the lead service is one step, as above; when calls overlap, a mail's outcome lasts exactly under the condition of `HandoffProofs.OverlappedMailLastsIff`, and it can be wrong (`OverlapCanMislead`). The mail's wording and the address lookup are not modelled.
- LeadsSerial.TerminalForever: for requests that do not overlap; the exact condition when they do is `LeadsInterleaved.TerminalStaysIffNothingDecided`.
- LeadEvents.EveryEventHasItsRow: which row an event was made for is a history that only the model keeps.
- LeadsSerial.HistoryReplays: the send follows its commit at once and succeeds; lost and overtaking sends are in `LeadEvents`, and `Handoff` lets the adapter see any published event late, repeatedly or never.
- SemanticCacheComplete.CacheIsList: one clock stamps lookups, stores and expiries, nothing is evicted, and a lookup is one step; under evictions and interleaved commands the guarantee is `SemanticCacheProofs.HitsAreLogged`.
- SemanticCacheComplete.AskingAgainHits: one clock, no eviction and a lookup as one step, as above; that a hit does not call the model is `SemanticCache.QaService.Ask`.
- SlidingWindowExact.LogRefinement: for stamps that never go back and keep pace with key expiry (`SlidingWindowExact.Timely`); for any skew the guarantees are `Bound` and `CountSandwich`.
- SlidingWindowExact.RetryIsExact: for such stamps; for any stamps the guarantees are `SlidingWindowWait.WaitSuffices` and `RetryBound`.
- SlidingWindowExact.StaysAhead: for such stamps.
- GatewayRuns.RetryAfterIsEnough: for such stamps; for any stamps the guarantee is `GatewayRuns.WaitingIsEnough`.
- SemanticCacheProofs.HitsAreSound: stores between the prune and the list are stamped after the cutoff; without that, `HitsAreLogged` and `LateStoreIsOldHit`.
- SlidingWindowExact.GreedyIsOptimal: for such stamps, where arrivals are in stamp order.
- Cosine.CosineSimilarity: over real numbers, with the square root given by its defining equation; rounding is not modelled.
- Leads.LeadsService.CreateLead: the lead and its first history row appear in one step; the code writes them one after the other. In the method the send succeeds at once; in `LeadsInterleaved` it is a move of its own that may be lost.
- Leads.LeadsService.Transition: notes, time stamps, loan amount and purpose are not kept; a history row also records the role that let the change happen, which the code does not store. In the method the send succeeds at once, as above.
- Leads.KycService.UploadKyc: between requests (`LeadsInterleaved.Move`), its access check, file check and document row are one step; the read and the commit of the status change are separate ones.
- RefreshTokens.TokenService.IssueTokenPair: user agent, address and the signed access token are not kept; `chains` and `exchanged` are histories that only the model keeps.
- RefreshTokens.AuthService.RegisterUser: the registration event is not modelled, and a user is named by the normalised e-mail address.
- SemanticCache.RedisSemanticCacheService.StoreAnswer: Redis refuses a TTL that is not positive; here such an entry is stored and has expired at once.
- Pagination.List: page and page size are at least 1, as the query validation demands, and the rows are a fixed, totally ordered snapshot; rows with equal creation time have no defined order in the code. The user list (`apps/user-service/src/users/users.service.ts:84-100`) has the same shape.
- Gateway headers and bodies other than Retry-After, identity headers for downstream services, and the proxying itself.
- The shape check of Kafka messages: whether a message parses is an input.
- User profile and role changes, the trimming and lower-casing of e-mail addresses, and user-service's copy of the latest lead status: overwrites without an ordering guarantee.
- The underwriting graph, router, database agent, ingestion and vector store, the dashboards, KYC file storage and file-type checks.
- NestJS wiring, DTO validation, HTTP clients, SMTP, Kafka, Prisma and Redis client internals, JWT and password cryptography, Docker, Nginx and migrations.
