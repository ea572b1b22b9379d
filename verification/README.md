# Arcana core: memory, credentials and gateways

This project models the stateful core of Arcana and proves how it behaves over whole runs. There is one Dafny
module per source component, plus a module of theorems where a component has many:

| component | modules |
|---|---|
| OAuth credential refresh, device-grant polling | `Credentials`, `CredentialRuns`, `DeviceGrant` |
| decay, routing, federation | `Decay`, `Router`, `Federation`, `FederationRuns`, `FederatedSearch`, `FederationPrune` |
| circuit breaker and tier wrapper | `Resilience`, `BreakerLog` |
| SQLite and vector stores, migrations | `SqliteStore`, `IndexRuns`, `PruneTheorems`, `VectorSearch`, `VectorAdapter`, `Migrations` |
| folder reader, wikilinks, edges | `MarkdownFolder`, `Wikilinks`, `Edges` |
| tool gateway, agent loop, model gateway | `ToolGateway`, `AgentRun`, `ModelGateway`, `ModelReference` |
| shared | `MemoryTypes`, `Options`, `StableSort` (Python's stable reverse sort), `Multiples` (exact arithmetic), `Sets` |

Objects whose methods update their fields are classes; each of their methods is proved against a function of the
old state, and the theorems are about those functions. `dafny verify dfyconfig.toml` checks everything.

## How the environment enters

- Clocks, failures, latencies, server answers, model responses and adapter results are parameters, so every theorem
  holds for all of them. Times are reals; each operation reads its clock where the source does, and clocks do not run
  backwards.
- Concurrency is a state machine. A credential task can be preempted only while it waits for the lock and while its
  request is in flight; a folder scan can see another scan's index at any file.
- `0.5 ** x` is any function `half` that satisfies `IsHalfPower`: value 1 at 0 and one half at 1, sums turned into
  products, positive, strictly decreasing. Floats are reals.
- An authorization server never issues the same access token twice.
- Tables are maps and sequences. KNN and BM25 results are lists of ids; metadata filters are a predicate; a query
  without `ORDER BY` may list its rows in any order.
- A SQLite connection has a view of its own beside what is committed. The first row change opens a transaction, and
  every later statement of the connection is part of it until something commits; creating the vector table outside a
  transaction commits at once. The memory adapters never roll back: a failing statement leaves the transaction open,
  unless it is found to be corruption, which closes the connection and quarantines the store. The edge store on the
  same connection does, when a replacement fails, as it does whenever it finds a transaction open.
- Uses of one connection do not overlap, except that others may come between the row and the vector of a write. Each
  may fail at any of its statements.
- A note's links are its cleaned, lower-cased targets; a parsed note is a function of its path, text, creation time
  and modification time.
- Tiers are backed by distinct stores.

## Where the code does not do what its text says

Each is proved, with a concrete case or as the exact condition under which the promise holds.

- A floor at or above a positive threshold protects a decaying profile only if its half-life is positive
  (`NeverAgesOutExactly`).
- Decay can reorder two entries: under linear decay, or beside a timestamp in the future (`LinearOrderExactly`,
  `ExponentialOrderExactly`).
- A HALF_OPEN breaker does not count probes (`ProbesAreNotCounted`).
- Only successful refreshes are shared among waiters (`WaiterAsksExactly`, `FailedRefreshIsRepeated`).
- An adapter wrapped beforehand keeps its label, so a private write can be lost silently
  (`DurableExactly`, `PrivateAdapterExactly`).
- A soft delete leaves the entry to be found, and "deleted", again (`SoftForgetNeverSettles`).
- A failed pool equals an unregistered one except for a query that names it (`FailedTierIsUnregistered`).
- A store-wide purge removes GLOBAL rows although a delete there is refused (`PruneReachesGlobal`).
- A negative fusion weight passes the constructor and takes scores out of [0, 1] (`ConfiguredWeightsExactly`).
- A hard delete or purge that fails at the vector index, or a hard delete between the row and the vector of a write,
  leaves vectors without rows (`IndexSoundExactly`, `DeleteBetweenHalvesStrands`).
- A first embedded write that fails can leave an index without a pin (`IndexPairedExactly`); an embedder of another
  dimension then pins the database to an index that takes none of its vectors, for good (`WidthIsPinExactly`,
  `WrongWidthIsForGood`).
- A prune is not one transaction that happens or does not: if it fails after its row statement, the rows are gone for
  this connection. The next commit makes that final, be it that of a search; a replacement of edges fails and undoes
  it (`FailedPruneExactly`, `SettledExactly`).
- Rewriting an entry while no embedder is healthy leaves the old vector in the index (`WriteAgreesExactly`).
- A migration listed after a newer one is skipped (`OrderMattersExactly`).
- A negative retry count makes a stream end normally with no output (`NegativeRetriesAttemptNothing`).
- The suggested connection name does not survive being printed and parsed (`SuggestedNameDoesNotRoundTrip`).
- A tool that lost its plain wire name and is provided again is offered twice (`OneWireExactly`,
  `LoserIsOfferedTwice`).
- Replacing a producer's edges overwrites another producer's edge with the same key (`SurvivesExactly`,
  `OverwrittenReferenceIsLost`); a failed `upsert` is not rolled back (`EdgeStore.Upsert`).
- Path-qualified links are never ambiguous, even when two notes share the path (`RefusedExactly`, `PathsAreGuessed`).
- A resumed session keeps its tool records but its token totals are overwritten by the last run (`Agent.Run`).

## Model

| member | source | states |
|---|---|---|
| `Credentials.OAuthCredentialProvider.GetToken` | packages/arcana-core/arcana/auth/provider.py:172-179 | one uninterrupted step: raises without a token, hands out a token that is not expiring, otherwise waits for the lock remembering what it saw |
| `Credentials.OAuthCredentialProvider.OnUnauthorized` | packages/arcana-core/arcana/auth/provider.py:181-195 | one step: answers "no retry" without a refresh token, otherwise waits for the lock whatever the expiry says |
| `Credentials.OAuthCredentialProvider.EnterRefresh` | packages/arcana-core/arcana/auth/provider.py:206-213 | one step under the lock: reload, reuse a token rotated meanwhile, skip one no longer expiring (proactive path only), otherwise go to the network holding the lock |
| `Credentials.OAuthCredentialProvider.FinishRefresh` | packages/arcana-core/arcana/auth/provider.py:214-226 | one step: a refusal releases the lock and changes nothing stored; a grant saves the rotated token before it is handed out |
| `CredentialRuns.RunKeepsInv` | packages/arcana-core/arcana/auth/provider.py:197-226 | over every interleaving the tasks, the lock, the stored token and the chain of rotations stay consistent |
| `CredentialRuns.OneRefreshPerObservedToken` | packages/arcana-core/arcana/auth/provider.py:197-226 | tasks that observed the same access token cause at most one successful refresh, and each refresh presents the refresh token stored at that moment |
| `CredentialRuns.OneRotationPerStoredToken` | packages/arcana-core/arcana/auth/provider.py:224-226 | exactly one rotation for each token stored after the first, however many tasks ran |
| `CredentialRuns.SaverIsAlone` | packages/arcana-core/arcana/auth/provider.py:206-224 | when a task is about to save, it holds the lock, the stored token is the one it loaded, and no other request is in flight |
| `CredentialRuns.HandedOutIsStored` | packages/arcana-core/arcana/auth/provider.py:224-226 | a token is handed out only in a step that leaves it the stored one |
| `CredentialRuns.StaysRefreshable` | packages/arcana-core/arcana/auth/oauth.py:108-123 | a refreshable stored token stays refreshable through every run: an omitted refresh token is carried forward (section 6 of RFC 6749) |
| `CredentialRuns.LateWaiterReuses` | packages/arcana-core/arcana/auth/provider.py:207-211 | a waiter whose token was rotated meanwhile finishes at once with the stored one, taking no lock and making no request |
| `CredentialRuns.SomeoneCanMove` | packages/arcana-core/arcana/auth/provider.py:206-226 | no deadlock: while a task is unfinished some unfinished task can take its next step |
| `CredentialRuns.WaiterAsksExactly` | packages/arcana-core/arcana/auth/provider.py:197-216 | whatever other tasks do meanwhile, a waiting task asks the server itself if and only if no refresh has succeeded since it began to wait, the token is refreshable and, on the proactive path, still expired |
| `CredentialRuns.UnauthorizedAtOnce` | packages/arcana-core/arcana/auth/provider.py:188-192 | a 401 is answered "no retry" at once if and only if there is no refresh token to use; otherwise the task waits for the lock whatever the expiry, and nothing else changes |
| `CredentialRuns.UnauthorizedAsksServer` | packages/arcana-core/arcana/auth/provider.py:181-216 | from the call on, whatever other tasks do meanwhile: once it has the lock the task asks the server, for every expiry, clock and skew, unless a refresh has succeeded since; then a retry is worthwhile |
| `CredentialRuns.UnauthorizedAnswersAsServer` | packages/arcana-core/arcana/auth/provider.py:191-195 | once it has asked, the answer to the caller of a 401 is the server's: a retry is worthwhile if and only if the refresh was granted |
| `CredentialRuns.GetTokenAtOnce` | packages/arcana-core/arcana/auth/provider.py:172-179 | raises without a token; hands out the stored one if it never expires or `now < expires_at - skew`; otherwise waits |
| `CredentialRuns.ExpiringTokenAsksServer` | packages/arcana-core/arcana/auth/provider.py:177-216 | from the call on an expiring token: once it has the lock the task asks the server if there is a refresh token, raises if there is none, and asks nobody if a refresh has succeeded since |
| `CredentialRuns.GetTokenEndsAsServer` | packages/arcana-core/arcana/auth/provider.py:214-226 | once it has asked, it hands out the granted access token, or raises |
| `CredentialRuns.AnswerIsStored` | packages/arcana-core/arcana/auth/oauth.py:108-123 | a grant is stored whole: lifetime counted from now, omitted refresh token and scopes carried over; a refusal changes nothing stored; either way the lock is free |
| `CredentialRuns.FailedRefreshIsRepeated` | packages/arcana-core/arcana/auth/provider.py:214-223 | only successes are shared: a legal run in which, after a refusal, the next waiter asks the server again |
| `DeviceGrant.PollDeviceToken` | packages/arcana-core/arcana/auth/oauth.py:445-461 | the poll loop computes exactly the specified sequence of poll times and result |
| `DeviceGrant.PollsAreSpaced` | packages/arcana-core/arcana/auth/oauth.py:445-459 | polls are at least the initial interval plus five seconds per `slow_down` so far apart, and that interval is at least one second (section 3.5 of RFC 8628) |
| `DeviceGrant.PollsAreBounded` | packages/arcana-core/arcana/auth/oauth.py:446-449 | at most `ceil(budget / interval)` polls, none for a budget that is not positive |
| `DeviceGrant.SlowDownsCost` | packages/arcana-core/arcana/auth/oauth.py:457-459 | `n` consecutive `slow_down` answers consume at least `n*i0 + 5*n*(n-1)/2` seconds |
| `DeviceGrant.LastAnswerDecides` | packages/arcana-core/arcana/auth/oauth.py:451-461 | every poll but the last was told to keep polling; a token is returned exactly when the last answer approved; the timeout exactly when none decided |
| `DeviceGrant.PollsExactly` | packages/arcana-core/arcana/auth/oauth.py:445-461 | the whole run from what was declared: every poll comes exactly one interval, five seconds longer per `slow_down`, after its turn began; every turn begins before the code expires and before the local ceiling; a timeout means one of them was reached; otherwise the last answer is the result |
| `Decay.ResolveDecayProfiles` | packages/arcana-core/arcana/memory/decay.py:113-137 | each type gets the system default with the card's half-life where set; a world card gets a profile that never decays everywhere |
| `Decay.ScoreNeverRises` | packages/arcana-core/arcana/memory/decay.py:34-64 | with nonnegative importance the score of an unaccessed entry never rises as time passes |
| `Decay.AgedOutForever` | packages/arcana-core/arcana/memory/decay.py:67-83 | ageing out is permanent |
| `Decay.ExponentialKeepsOrder` | packages/arcana-core/arcana/memory/decay.py:56-64 | exponential decay never strictly inverts two unpinned, unaccessed entries under one profile, once both reference times are past |
| `Decay.ExponentialOrderExactly` | packages/arcana-core/arcana/memory/decay.py:53-64 | of two decaying entries the lower stays below at all later times if and only if it is below at the first time it decays: a timestamp in the future is the only exception to keeping order |
| `Decay.LinearOrderExactly` | packages/arcana-core/arcana/memory/decay.py:53-64 | under linear decay it stays below if and only if, besides, it has reached the bottom of its score or gets there no later than the other |
| `Decay.LinearInverts` | packages/arcana-core/arcana/memory/decay.py:59-60 | linear decay does invert: a concrete pair |
| `Decay.FutureTimestampInverts` | packages/arcana-core/arcana/memory/decay.py:57 | the order is only kept from timestamps in the past on: a concrete pair with a clamped age |
| `Decay.NeverAgesOutExactly` | packages/arcana-core/arcana/memory/decay.py:76-83 | a profile never ages out an entry of nonnegative importance if and only if it does not decay, its threshold is not positive, or it has a positive half-life and a floor at or above its threshold |
| `Decay.AgesOutAfter` | packages/arcana-core/arcana/memory/decay.py:61-83 | an exponential entry is aged out at every time strictly past `k` half-lives once its importance times `0.5 ** k` is at the threshold |
| `Decay.EpisodicGoneAfterTwoHalfLives` | packages/arcana-core/arcana/types/memory.py:74-81 | an EPISODIC entry of importance at most 1 is aged out at every time past two half-lives; at exactly two, with importance 1, it is not |
| `Decay.ScoreAfterHalfLives` | packages/arcana-core/arcana/memory/decay.py:34-64 | the score at every moment, counted in half-lives of 86400-second days since the last access, or the creation: `0.5 ** k` of the importance, or linearly less by half of it per half-life, down to the floor; untouched for a pin, no decay or no half-life |
| `Decay.HalfLifeHalves` | packages/arcana-core/arcana/memory/decay.py:37-42 | on either curve one half-life leaves half the importance, as far as the floor allows |
| `Decay.CardScores` | packages/arcana-core/arcana/types/memory.py:74-103 | the figures of every type under every card: half-life 14, 180, 365 or 60 days unless the card sets one, floor, threshold, and from them the score and exactly when an entry has aged out; SEMANTIC and PROCEDURAL never while they have a half-life |
| `StableSort.SortDescCharacterised` | packages/arcana-core/arcana/memory/router.py:207-209 | the one result a stable reverse sort can have: descending, with ties in input order |
| `StableSort.FilterSortSlice` | packages/arcana-core/arcana/memory/router.py:207-209 | filter, sort and cut return only kept elements, in order, and nothing left out ranks strictly above anything returned |
| `Router.MemoryRouter.RegisterPool` | packages/arcana-core/arcana/memory/router.py:95-121 | registering a name again replaces its backend, in its place; a new name joins at the end; an adapter already wrapped keeps its own wrapper and label |
| `Router.RegistrationsExactly` | packages/arcana-core/arcana/memory/router.py:95-121 | after any registrations exactly the tiers have an adapter: the private and the global one as given, each pool the last one registered for it, wrapped for its scope unless it came wrapped |
| `Router.PoolsKeepTheirPlace` | packages/arcana-core/arcana/memory/router.py:95-97 | pools are listed in the order of their first registrations, each with the adapter of its last |
| `Router.MemoryRouter.AllTiers` | packages/arcana-core/arcana/memory/router.py:233-243 | private, then the pools in order, then global: exactly the tiers that have an adapter |
| `Router.AllTiersDistinct` | packages/arcana-core/arcana/memory/router.py:233-243 | no tier is listed twice; private, then each pool in its place, then global |
| `Router.ReadRouteExactly` | packages/arcana-core/arcana/memory/router.py:152-181 | a read raises if and only if it names an unknown pool, and otherwise reaches exactly the registered tiers it asks for by scope and pool name, in the order of all tiers |
| `Router.RankSpec` | packages/arcana-core/arcana/memory/router.py:183-209 | the ranking drops aged-out entries, orders by pin, weighted decayed score and recency, and leaves out nothing better than what it returns |
| `Router.RankedByWeightedScore` | packages/arcana-core/arcana/memory/router.py:199-209 | pinned before unpinned, then decayed score times the weight of the entry's own type, then last access; nothing aged out; and nothing live left out that belongs strictly before something returned |
| `Router.BrowsedByScore` | packages/arcana-core/arcana/memory/router.py:223-231 | a listing is in the order of pin, decayed score without weights, and last access |
| `Router.BrowseShowsEverything` | packages/arcana-core/arcana/memory/router.py:211-231 | a listing is the top of all entries, aged out or not: as many as there are, cut to the limit, in order, nothing left out above anything shown; with room enough it shows all |
| `Router.EqualWeightsRankLikeDecaySorted` | packages/arcana-core/arcana/memory/decay.py:99-110 | with equal positive weights the router's ranking is `decay_sorted` |
| `Federation.MemoryFederation.Write` | packages/arcana-core/arcana/memory/federation.py:94-126 | the new stores and the verdict with its degradations, for every combination of leg outcomes; all legs run before any is judged |
| `Federation.MemoryFederation.FindOwningTier` | packages/arcana-core/arcana/memory/federation.py:301-320 | the first tier in routing order that resolves the id; tiers without a lookup are skipped, a backend error surfaces |
| `Federation.MemoryFederation.Forget` | packages/arcana-core/arcana/memory/federation.py:227-247 | the new stores and the outcome: not found, refused for GLOBAL, refused for a read-only tier, deleted or archived, or a backend error |
| `Federation.MemoryFederation.GetById` | packages/arcana-core/arcana/memory/federation.py:216-225 | the copy in the owning tier |
| `Federation.MemoryFederation.GatherMerged` | packages/arcana-core/arcana/memory/federation.py:276-299 | the dict filled by `setdefault` in routing order is the merge the specification names |
| `Federation.MemoryFederation.SearchTiers` | packages/arcana-core/arcana/memory/federation.py:267-274 | route, gather, rank; a routing error is reported |
| `Federation.MemoryFederation.BrowseTiers` | packages/arcana-core/arcana/memory/federation.py:201-214 | route, gather, order by importance |
| `FederationRuns.WriteStateAt` | packages/arcana-core/arcana/memory/federation.py:109-113 | what one store holds after a write depends only on its own leg |
| `FederationRuns.PrivateWriteIsDurable` | packages/arcana-core/arcana/memory/federation.py:104-126 | a PRIVATE write that returns normally is in the private store; a failed GLOBAL leg never fails it |
| `FederationRuns.PrivateWriteExactly` | packages/arcana-core/arcana/memory/router.py:135-139 | a PRIVATE entry goes to the private tier unchanged, from importance 0.9 on as a rewritten copy to the global one, and nowhere else |
| `FederationRuns.SharedWriteExactly` | packages/arcana-core/arcana/memory/router.py:140-141 | a SHARED entry goes, unchanged and under its id, to the pool it names and nowhere else; a failed leg is reported as one degraded write of that pool, or raises if its wrapper is labelled PRIVATE; no name or an unknown one raises and changes nothing |
| `FederationRuns.GlobalWriteExactly` | packages/arcana-core/arcana/memory/router.py:143-144 | the same for a GLOBAL entry and the global tier; without that tier the write raises and changes nothing |
| `FederationRuns.PromotionExactly` | packages/arcana-core/arcana/memory/router.py:135-139 | GLOBAL receives a rewritten copy under the same id exactly when importance is at least 0.9 and its leg commits; a failed leg is reported as a paused promotion |
| `FederationRuns.DurableExactly` | packages/arcana-core/arcana/memory/federation.py:109-126 | for any labels on the wrappers: a PRIVATE write that returns normally has stored an entry not stored before, whatever fails, if and only if the private tier's wrapper is labelled PRIVATE |
| `FederationRuns.PrivateAdapterExactly` | packages/arcana-core/arcana/memory/router.py:95-121 | in terms of the adapters a router is given, whatever pools are registered: if and only if the private one comes bare or already wrapped for PRIVATE |
| `FederationRuns.RunKeepsScopes` | packages/arcana-core/arcana/memory/federation.py:322-327 | over every run with any failures no store ever holds an entry of another scope or pool, or under another id |
| `FederationRuns.ForgetNeverTouchesGlobal` | packages/arcana-core/arcana/memory/federation.py:239-247 | no delete changes the GLOBAL store |
| `FederationRuns.ForgetExactly` | packages/arcana-core/arcana/memory/federation.py:227-247 | an undisturbed delete concerns the first tier that resolves the id: refused from GLOBAL and from a read-only tier, otherwise the entry goes, or stays archived, in that tier alone |
| `FederationRuns.ForgetNothing` | packages/arcana-core/arcana/memory/federation.py:235-238 | an id no tier resolves is not found and nothing changes |
| `FederationRuns.LookupFaultExactly` | packages/arcana-core/arcana/memory/federation.py:301-320 | a backend that raises during the lookup makes the delete fail, changing nothing, if and only if it is asked: it has a lookup and comes no later than the tier that resolves the id |
| `FederationRuns.DeleteFaultExactly` | packages/arcana-core/arcana/memory/federation.py:239-247 | a backend that raises from the delete makes it fail, with the entry gone, or archived, or not, as it went; where the delete is refused it is never asked |
| `FederationRuns.RunNeverLosesGlobal` | packages/arcana-core/arcana/memory/federation.py:227-247 | over every run of writes and deletes GLOBAL loses no id |
| `FederationRuns.HardForgetShrinks` | packages/arcana-core/arcana/memory/federation.py:227-247 | undisturbed, a successful hard delete removes exactly the owning tier from the holders; any other answer changes nothing |
| `FederationRuns.ForgetOnceExactly` | packages/arcana-core/arcana/memory/federation.py:227-247 | under any fault one hard delete takes exactly one holder away or changes nothing, and "forgotten" means it took the owning tier |
| `FederationRuns.HoldersAddUp` | packages/arcana-core/arcana/memory/federation.py:227-247 | over any sequence of hard deletes and faults the holders never grow, and those left plus the calls that took effect are those there were |
| `FederationRuns.RepeatedForgetSettles` | packages/arcana-core/arcana/memory/federation.py:227-247 | whatever failed in between, as many undisturbed hard deletes as there are holders end in not-found or in the refusal of the first tier that may not delete |
| `FederationRuns.GetIsMostLocal` | packages/arcana-core/arcana/memory/federation.py:216-225 | an id held by several tiers resolves to the copy of the first |
| `FederationRuns.PromotedIdOutlivesItsPrivateCopy` | packages/arcana-core/arcana/memory/federation.py:216-247 | after the private copy of a promoted entry is deleted, the next delete is refused and the id resolves to its GLOBAL copy, if and only if no pool has the id |
| `FederationRuns.SoftForgetNeverSettles` | packages/arcana-core/arcana/memory/federation.py:239-247 | a soft delete leaves the holders as they were, so repeating it gives the same answer for ever |
| `FederatedSearch.MergeIsFirstCopyPerId` | packages/arcana-core/arcana/memory/federation.py:289-299 | the merged candidates hold each id once, as its first copy in arrival order, and miss none |
| `FederatedSearch.FirstCopyComesFromFirstTier` | packages/arcana-core/arcana/memory/federation.py:294-297 | that copy is the one of the first routed tier that returned the id |
| `FederatedSearch.SearchRefinesSpecification` | packages/arcana-core/arcana/memory/federation.py:267-299 | distinct ids, most-local copies, nothing aged out, best first; as many as there are ids with a live first copy, cut to the limit; and no survivor left out ranks strictly above one returned |
| `FederatedSearch.AnswersExactly` | packages/arcana-core/arcana/memory/federation.py:267-274 | a search or a listing fails if and only if it names an unknown pool |
| `FederatedSearch.BrowseContainsSearch` | packages/arcana-core/arcana/memory/federation.py:201-214 | a browse with room for all shows everything a search returns and every merged entry |
| `FederatedSearch.FailedTierIsUnregistered` | packages/arcana-core/arcana/memory/federation.py:286-293 | the answer with a failed tier is the answer with that tier unregistered, if and only if the query does not name that pool |
| `FederationPrune.FederatedStores.Prune` | packages/arcana-core/arcana/memory/federation.py:182-199 | every prunable tier goes through its own prune, each failing at any statement or not; the reports are summed; one failure makes the call raise and undoes no other |
| `FederationPrune.FederatedReportAddsUp` | packages/arcana-core/arcana/memory/federation.py:192-199 | if no tier raises, whatever transactions were open: scanned is the active rows the connections saw, purged the rows gone, archived the rows no longer active, and what is left is committed |
| `FederationPrune.FederatedPruneTouchesOnlyVictims` | packages/arcana-core/arcana/memory/federation.py:182-192 | a tier that raises has committed nothing, and its connection still sees its old tables if and only if its row statement did not go through; no pinned row and no non-victim changes anywhere, unless corruption closes the connection |
| `FederationPrune.SecondFederatedPruneIsIdle` | packages/arcana-core/arcana/memory/federation.py:182-199 | after a store-wide prune that completed, a second one changes no table, failing or not, and reports nothing removed |
| `FederationPrune.PruneReachesGlobal` | packages/arcana-core/arcana/memory/federation.py:191-192 | unlike a delete by id, a purge that does not raise there removes GLOBAL rows below the floor |
| `Resilience.CircuitBreaker.Create` | packages/arcana-core/arcana/memory/resilience.py:57-64 | a threshold below one is refused |
| `Resilience.CircuitBreaker.State` | packages/arcana-core/arcana/memory/resilience.py:66-71 | reading the state latches HALF_OPEN once the cooldown is over |
| `Resilience.CircuitBreaker.Allow` | packages/arcana-core/arcana/memory/resilience.py:73-75 | a call may proceed unless the breaker is OPEN and cooling |
| `Resilience.CircuitBreaker.RecordSuccess` | packages/arcana-core/arcana/memory/resilience.py:77-81 | closes and forgets failures |
| `Resilience.CircuitBreaker.RecordFailure` | packages/arcana-core/arcana/memory/resilience.py:83-94 | re-trips from HALF_OPEN without counting, otherwise counts and trips at the threshold |
| `Resilience.CircuitBreaker.ForceOpen` | packages/arcana-core/arcana/memory/resilience.py:96-102 | trips whatever the count |
| `Resilience.ResilientTier.Search` | packages/arcana-core/arcana/memory/resilience.py:164-193 | reads are total: the answer within budget or nothing, and the breaker after the call |
| `Resilience.ResilientTier.Write` | packages/arcana-core/arcana/memory/resilience.py:195-225 | written only if reached and returned; otherwise the failure carries the tier's scope and reason; and the breaker after the call |
| `BreakerLog.ClosedExactly` | packages/arcana-core/arcana/memory/resilience.py:66-111 | for every event sequence: CLOSED if and only if, since the last success, nothing forced it open and fewer than the threshold failed |
| `BreakerLog.AllowExactly` | packages/arcana-core/arcana/memory/resilience.py:73-111 | for every event sequence: a call is refused if and only if the last trip is still cooling |
| `BreakerLog.LooksAreUnobservable` | packages/arcana-core/arcana/memory/resilience.py:66-75 | reads of the state, though they write it, change no later answer |
| `BreakerLog.ProbesAreNotCounted` | packages/arcana-core/arcana/memory/resilience.py:66-75 | once one call may proceed, so may any number of others, until an outcome is recorded |
| `BreakerLog.WindowSpacing` | packages/arcana-core/arcana/memory/resilience.py:83-111 | on a failing backend, calls beyond the threshold are a full cooldown apart |
| `BreakerLog.FailingBackendLoad` | packages/arcana-core/arcana/memory/resilience.py:164-225 | in any time `t` of a sequential failing run at most `threshold + floor(t / reset_after)` calls reach the backend |
| `BreakerLog.CallIsItsLog` | packages/arcana-core/arcana/memory/resilience.py:164-225 | a guarded call does to the breaker what replaying its log does: a look, then success, corruption or failure at its end, then a look; a refused call is its look alone |
| `BreakerLog.CallsAreTheirLog` | packages/arcana-core/arcana/memory/resilience.py:164-225 | so does any sequence of guarded calls, whatever each came to |
| `BreakerLog.CallsCloseExactly` | packages/arcana-core/arcana/memory/resilience.py:164-225 | after any calls on a new breaker it is CLOSED if and only if, since the last call that returned, none met corruption and fewer than the threshold failed |
| `BreakerLog.ReturnedCallCloses` | packages/arcana-core/arcana/memory/resilience.py:188-191 | a call that was let through and returned leaves the breaker CLOSED without failures |
| `BreakerLog.CorruptCallOpens` | packages/arcana-core/arcana/memory/resilience.py:180-183 | corruption opens it at once, whatever the count, provided the cooldown is positive |
| `BreakerLog.FailedCallCounts` | packages/arcana-core/arcana/memory/resilience.py:176-187 | a timeout or an error counts once and opens it at the threshold; on trial it reopens it, uncounted |
| `VectorSearch.FetchOrderIrrelevant` | packages/arcana-core/arcana/memory/adapters/vector.py:310-326 | rows fetched in any order, re-sorted by KNN rank, are exactly the passing candidates, nearest first |
| `VectorSearch.FilterAfterKnn` | packages/arcana-core/arcana/memory/adapters/vector.py:301-326 | filter-after-KNN equals filter-before-KNN if and only if `limit` candidates pass or nothing beyond them does |
| `VectorSearch.SmallIndexIsExact` | packages/arcana-core/arcana/memory/adapters/vector.py:301-326 | an index no larger than the candidate pool always gets the full answer |
| `VectorSearch.CandidatesExactly` | packages/arcana-core/arcana/memory/adapters/vector.py:301 | the candidates are the nearest fifty, or the nearest `limit * multiplier` where that is more |
| `VectorSearch.MinMaxRange` | packages/arcana-core/arcana/memory/adapters/vector.py:57-71 | normalised scores lie in [0, 1], keep the order, and the best is 1 |
| `VectorSearch.MinMaxIgnoresScale` | packages/arcana-core/arcana/memory/adapters/vector.py:57-71 | a positive scaling and shift of a leg changes no normalised score, ties included |
| `VectorSearch.NormalisedWeightsSumToOne` | packages/arcana-core/arcana/memory/adapters/vector.py:98-102 | nonnegative weights with a positive total become nonnegative weights that sum to 1 |
| `VectorSearch.NormalisedExactly` | packages/arcana-core/arcana/memory/adapters/vector.py:98-102 | the constructor refuses exactly a total that is not positive, and keeps the proportion of the weights |
| `VectorSearch.FusedInUnit` | packages/arcana-core/arcana/memory/adapters/vector.py:398-404 | every fused score lies in [0, 1] |
| `VectorSearch.FusedMonotone` | packages/arcana-core/arcana/memory/adapters/vector.py:398-404 | a candidate no worse on both legs never scores lower, missing legs included |
| `VectorSearch.HybridIgnoresScales` | packages/arcana-core/arcana/memory/adapters/vector.py:396-407 | the hybrid answer does not depend on the unit or origin of either leg |
| `VectorSearch.LegScoreExactly` | packages/arcana-core/arcana/memory/adapters/vector.py:57-71 | each leg scores each id in exactly one way: nothing where it did not find it, all where everything it found ties, otherwise its distance from the farthest survivor as a share of the way to the nearest |
| `VectorSearch.HybridScoreExactly` | packages/arcana-core/arcana/memory/adapters/vector.py:394-404 | every entry has exactly one score, both legs' shares weighted and added |
| `VectorSearch.HybridExactly` | packages/arcana-core/arcana/memory/adapters/vector.py:402-407 | the hybrid answer: survivors only, as many as the limit takes, higher scores first, none left out that scores higher than one kept |
| `VectorSearch.InUnitExactly` | packages/arcana-core/arcana/memory/adapters/vector.py:398-404 | of weights that sum to 1: every fused score lies in [0, 1] if and only if neither is negative |
| `VectorSearch.ConfiguredWeightsExactly` | packages/arcana-core/arcana/memory/adapters/vector.py:98-102 | of configured weights the constructor accepts: the fused scores stay in [0, 1] if and only if neither configured weight is negative |
| `VectorAdapter.VectorAdapter.Search` | packages/arcana-core/arcana/memory/adapters/vector.py:245-275 | which path answers: vectors only with extension, mode, text, pin, embedder and matching dimension together; and what the connection sees and has committed after the read is recorded, or a query or the recording fails |
| `VectorAdapter.VectorAdapter.Semantic` | packages/arcana-core/arcana/memory/adapters/vector.py:301-329 | the rank dict and the sort by it give the specified ranking, cut to the limit |
| `VectorAdapter.VectorAdapter.Hybrid` | packages/arcana-core/arcana/memory/adapters/vector.py:394-410 | both legs normalised over the survivors, blended, sorted and cut give the specified ranking |
| `VectorAdapter.VectorAdapter.RecordRead` | packages/arcana-core/arcana/memory/adapters/sqlite.py:422-450 | one update of the access time of exactly the rows read, if refreshing is on, and a commit, each of which may fail |
| `VectorAdapter.MinMaxScores` | packages/arcana-core/arcana/memory/adapters/vector.py:57-71 | the rescaled leg, computed from one pass for the extremes |
| `VectorAdapter.ReadingNeverLowers` | packages/arcana-core/arcana/memory/adapters/sqlite.py:425-431 | being read never lowers an entry's score at any later time, nor makes it age out sooner |
| `VectorAdapter.ReadingRestarts` | packages/arcana-core/arcana/memory/adapters/sqlite.py:425-428 | a refreshing profile gives a just-read entry its full importance again |
| `VectorAdapter.ReadingOnlyTouches` | packages/arcana-core/arcana/memory/adapters/sqlite.py:426-430 | the answer is what was stored before the read; only the access time of the rows read changes |
| `SqliteStore.MemoryDatabase.Write` | packages/arcana-core/arcana/memory/adapters/vector.py:186-243 | what the connection sees, what is committed and the answer after a write, with or without an embedder, failing at any of its statements; a disagreeing dimension is refused before anything is written |
| `SqliteStore.MemoryDatabase.StartWrite` | packages/arcana-core/arcana/memory/adapters/vector.py:196-234 | an embedded write up to the commit of its row: checks, index and pin, row |
| `SqliteStore.MemoryDatabase.FinishWrite` | packages/arcana-core/arcana/memory/adapters/vector.py:237-243 | the rest of it: the old vector dropped, the new one inserted if the index has its width, then the commit |
| `SqliteStore.MemoryDatabase.RecordRead` | packages/arcana-core/arcana/memory/adapters/sqlite.py:442-450 | the access times of the rows read and the commit, which commits whatever transaction it finds open |
| `SqliteStore.MemoryDatabase.Delete` | packages/arcana-core/arcana/memory/adapters/sqlite.py:341-363 | a hard delete removes row and vector, a soft one archives; an absent id is reported; what is left, seen and committed, if a statement fails |
| `SqliteStore.MemoryDatabase.ClearVectors` | packages/arcana-core/arcana/memory/adapters/sqlite.py:398-400 | clears the given ids from the index one by one, or those before the failing one |
| `SqliteStore.MemoryDatabase.FindVictims` | packages/arcana-core/arcana/memory/adapters/sqlite.py:383-391 | the rows below the floor together with those beyond the cap |
| `SqliteStore.MemoryDatabase.Prune` | packages/arcana-core/arcana/memory/adapters/sqlite.py:369-411 | what the connection sees, what is committed and the report after a prune, in both modes, failing at any of its statements |
| `IndexRuns.RunKeepsValid` | packages/arcana-core/arcana/memory/adapters/sqlite.py:259-450 | over every run of writes, deletes, prunes, reads and edge updates, failing anywhere: rows sit under their own id, every vector has the width of its index, and outside a transaction the connection sees what is committed |
| `IndexRuns.PinIsPermanent` | packages/arcana-core/arcana/memory/adapters/vector.py:226-230 | once committed, neither the pin nor the width of the index ever changes |
| `IndexRuns.OrphansExactly` | packages/arcana-core/arcana/memory/adapters/sqlite.py:351-363 | how the vectors without a row change: a hard delete or purge that fails at the index adds those it left behind, a vector that comes after its row went is added, writing the row or dropping the vector again removes one, nothing else does either |
| `IndexRuns.IndexSoundExactly` | packages/arcana-core/arcana/memory/adapters/sqlite.py:341-411 | over every run, failing anywhere: the index never holds an id without a row if and only if no hard delete or purge of an indexed id failed at the index after its row was gone, and no write found its row gone when it came to the vector |
| `IndexRuns.DeleteBetweenHalvesStrands` | packages/arcana-core/arcana/memory/adapters/vector.py:234-243 | a hard delete between the row and the vector of a write leaves the vector without a row, although no statement fails |
| `IndexRuns.NextWriteCommitsTheOrphan` | packages/arcana-core/arcana/memory/adapters/sqlite.py:351-363 | such a delete has committed nothing yet; the next write of another entry commits the vector without its row |
| `IndexRuns.IndexPairedExactly` | packages/arcana-core/arcana/memory/adapters/vector.py:226-230 | over every run, failing anywhere: there is an index exactly when there is a pin, if and only if no first embedded write stopped between creating the index, which commits at once, and committing the pin |
| `IndexRuns.CompletesExactly` | packages/arcana-core/arcana/memory/adapters/vector.py:208-243 | an undisturbed embedded write completes if and only if pin and index width both are the embedder's dimension, or still open |
| `IndexRuns.WidthIsPinExactly` | packages/arcana-core/arcana/memory/adapters/_sql.py:360-373 | over every run, failing anywhere: the index has the pinned dimension throughout if and only if no embedder of another dimension pinned an index left without a pin |
| `IndexRuns.NoHalfPinNoMispin` | packages/arcana-core/arcana/memory/adapters/vector.py:226-230 | that needs a first write that stopped half-way before |
| `IndexRuns.HalfPinThenOtherWidth` | packages/arcana-core/arcana/memory/adapters/vector.py:226-243 | the two steps: a first write that fails at the pin, then one of another dimension, whose row is stored and whose vector is refused |
| `IndexRuns.WrongWidthIsForGood` | packages/arcana-core/arcana/memory/adapters/vector.py:237-243 | once such a pin is committed, no embedded write completes after any run |
| `IndexRuns.FailedPurgePends` | packages/arcana-core/arcana/memory/adapters/sqlite.py:393-407 | a purge that fails after its row statement leaves the removal of every committed victim pending |
| `IndexRuns.SettledExactly` | packages/arcana-core/arcana/memory/edges.py:96-116 | the next use of the connection makes a pending removal final if and only if it commits, a refreshing read included, and undoes it if and only if it rolls back, as a replacement of edges does, or finds corruption |
| `IndexRuns.PendingExactly` | packages/arcana-core/arcana/memory/adapters/sqlite.py:341-450 | over any run on other ids the removal stays pending exactly as long as nothing commits and nothing rolls back |
| `IndexRuns.WriteTouchesOnlyItsRow` | packages/arcana-core/arcana/memory/adapters/vector.py:186-243 | a write that succeeds is committed, row and embedder's vector both; one whose dimension is not the embedder's or the pin's is refused, exactly then, and changes nothing; and wherever a write fails no other row or vector changes unless the store is found corrupt |
| `IndexRuns.FailedWriteExactly` | packages/arcana-core/arcana/memory/adapters/vector.py:196-243 | how far a failed write got: up to the commit of its row it has committed no row; after that the row is committed with its embedding, and no vector |
| `IndexRuns.WriteAgreesExactly` | packages/arcana-core/arcana/memory/adapters/vector.py:206-243 | row and vector agree after a write if and only if an embedder was there, or the id had no vector yet, or the entry still carries that vector |
| `IndexRuns.DeleteExactly` | packages/arcana-core/arcana/memory/adapters/sqlite.py:341-363 | an undisturbed delete is committed and touches nothing but its id: row and vector gone, or the row marked archived; a failed one commits nothing |
| `IndexRuns.ReadExactly` | packages/arcana-core/arcana/memory/adapters/sqlite.py:422-450 | a read changes at most the access time of the rows read, which a refreshing one sets to now and commits; a failed one commits nothing |
| `PruneTheorems.VictimsAreRows` | packages/arcana-core/arcana/memory/adapters/_sql.py:77-97 | victims are non-pinned rows of the table |
| `PruneTheorems.PruneTouchesOnlyVictims` | packages/arcana-core/arcana/memory/adapters/sqlite.py:369-405 | no pinned row is touched, nor any other outside the victims; victims are gone or archived |
| `PruneTheorems.SurvivorsExactly` | packages/arcana-core/arcana/memory/adapters/_sql.py:77-97 | the rows still active are exactly those that meet the floor and rank inside the cap |
| `PruneTheorems.CapHolds` | packages/arcana-core/arcana/memory/adapters/_sql.py:87-97 | at most `max_entries` rows stay active |
| `PruneTheorems.CapRemovesTheLowest` | packages/arcana-core/arcana/memory/adapters/_sql.py:94-97 | every row the cap removes is no more important than every row that stays, and no more recent where equally important |
| `PruneTheorems.CapExactly` | packages/arcana-core/arcana/memory/adapters/_sql.py:87-97 | the cap's victims without the listing: a live row goes if as many as the cap allows rank above it, and stays if fewer than that even tie with it |
| `PruneTheorems.PruneExactly` | packages/arcana-core/arcana/memory/adapters/sqlite.py:369-405 | what a prune makes of every single row: pinned ones stay, those below the floor go, archived ones only in a purge, the cap decides about the rest; gone means row and vector deleted, or the row only marked archived |
| `PruneTheorems.PurgeReportAddsUp` | packages/arcana-core/arcana/memory/adapters/sqlite.py:393-409 | a purge reports exactly the rows that are gone |
| `PruneTheorems.ArchiveReportAddsUp` | packages/arcana-core/arcana/memory/adapters/sqlite.py:393-409 | an archiving prune reports exactly the rows no longer active, and loses none |
| `PruneTheorems.SecondPruneIsIdle` | packages/arcana-core/arcana/memory/adapters/sqlite.py:369-411 | a second prune by the same policy finds no victim, in whatever order the database lists rows |
| `PruneTheorems.PruneCompletesExactly` | packages/arcana-core/arcana/memory/adapters/sqlite.py:378-405 | a prune completes, committed, if and only if its store is not quarantined and none of the statements it gets to fails |
| `PruneTheorems.FailedPruneExactly` | packages/arcana-core/arcana/memory/adapters/sqlite.py:393-407 | a failed prune commits nothing and rolls nothing back: the victims are gone from the connection's view, or archived, if and only if their statement went through; corruption alone returns the view to what is committed |
| `PruneTheorems.NextWriteCommitsTheRest` | packages/arcana-core/arcana/memory/adapters/sqlite.py:393-407 | what a failed purge took from the view is committed by the next write that succeeds |
| `Migrations.Database.RunTransaction` | packages/arcana-core/arcana/memory/migrations/runner.py:42-52 | one migration commits whole with its version, or leaves the database as it was, wherever it fails |
| `Migrations.Database.MigrateToLatest` | packages/arcana-core/arcana/memory/migrations/runner.py:36-55 | the loop computes the specified run |
| `Migrations.AnyRunsStayConsistent` | packages/arcana-core/arcana/memory/migrations/runner.py:22-55 | after any runs, each failing anywhere or not, the schema is all statements of exactly the migrations up to `user_version`, each committed once |
| `Migrations.OneMigration` | packages/arcana-core/arcana/memory/migrations/runner.py:36-55 | what one migration does: nothing to a database that is not older, nothing if it fails, otherwise its statements, its version and one commit |
| `Migrations.RunsInTurn` | packages/arcana-core/arcana/memory/migrations/runner.py:36-55 | a run goes through its list from left to right and stops where it fails |
| `Migrations.CleanRunReachesHead` | packages/arcana-core/arcana/memory/migrations/runner.py:22-55 | from any reachable state one failure-free run ends at the latest version, and another changes nothing |
| `Migrations.FailedRunExactly` | packages/arcana-core/arcana/memory/migrations/runner.py:36-55 | over an increasing list a failing run has done exactly what a clean run over the migrations before the failing one does |
| `Migrations.UndisturbedRunIsClean` | packages/arcana-core/arcana/memory/migrations/runner.py:36-55 | a run with no migration to fail at is a clean run |
| `Migrations.AppendingIsSafe` | packages/arcana-core/arcana/memory/migrations/runner.py:39-41 | a consistent database stays consistent when newer migrations are appended to the list |
| `Migrations.OrderMattersExactly` | packages/arcana-core/arcana/memory/migrations/runner.py:39-41 | for any list of positive versions: a clean run from a fresh database applies every migration up to the version it ends at if and only if the list is strictly increasing; a migration listed after a newer one is skipped |
| `ModelGateway.ModelGateway.Complete` | packages/arcana-core/arcana/models/gateway.py:355-413 | attempts, sleeps, result and adapter health of a completion, for every script of failures; nothing is tried in cooldown |
| `ModelGateway.ModelGateway.Stream` | packages/arcana-core/arcana/models/gateway.py:584-632 | the same for a stream, with the chunks handed to the consumer |
| `ModelGateway.StreamNeverReplays` | packages/arcana-core/arcana/models/gateway.py:590-632 | the consumer sees the chunks of the last attempt alone; every earlier attempt failed retryably having yielded nothing; at most `max_retries + 1` attempts |
| `ModelGateway.CallTiming` | packages/arcana-core/arcana/models/gateway.py:391-400 | each sleep follows its attempt as the policy plans it and is followed at once by the next |
| `ModelGateway.DeadlineHolds` | packages/arcana-core/arcana/models/gateway.py:392-400 | with a total timeout every backoff begins before the deadline and ends by it, and only the last attempt can start at or after it |
| `ModelGateway.BackoffWithinCap` | packages/arcana-core/arcana/models/gateway.py:89-93 | without a server-given delay the backoff lies between zero and the cap |
| `ModelGateway.LastAttemptExactly` | packages/arcana-core/arcana/models/gateway.py:373-403 | an attempt is the last of its call if and only if it succeeded, failed for good, yielded output, was number `max_retries`, or ended at or after the deadline: an unavailable backend is tried again like any other passing failure |
| `ModelGateway.SleepsExactly` | packages/arcana-core/arcana/models/gateway.py:89-93 | how long every sleep is: what the server asked for, or else the draw below `min(cap, base * factor ** k)`, cut to the time left, never negative |
| `ModelGateway.FirstSuccessCompletes` | packages/arcana-core/arcana/models/gateway.py:373-400 | without a timeout a call completes with the first attempt that succeeds, if no earlier one is past retrying |
| `ModelGateway.AllRetriesAreMade` | packages/arcana-core/arcana/models/gateway.py:373-413 | if all fail retryably, `max_retries + 1` attempts are made and the last failure is raised |
| `ModelGateway.HealthExactly` | packages/arcana-core/arcana/models/gateway.py:377-413 | what a call says about its backend: healthy if it completed, unhealthy since its end if it was given up on as unavailable before any output, otherwise nothing new |
| `ModelGateway.CooldownExactly` | packages/arcana-core/arcana/models/gateway.py:252-265 | a healthy adapter refuses the next call if and only if this one was given up on as unavailable, unstreamed, within the cooldown |
| `ModelGateway.NegativeRetriesAttemptNothing` | packages/arcana-core/arcana/models/gateway.py:593 | nothing is attempted if and only if `max_retries` is negative: a stream then ends silently |
| `ModelReference.PrintAfterParse` | packages/arcana-core/arcana/models/gateway.py:532-560 | whatever parses is printable and prints back to the same string |
| `ModelReference.ParseAfterPrint` | packages/arcana-core/arcana/models/gateway.py:532-560 | printing then parsing gives the reference back if and only if no part is empty, the provider has neither `:` nor `/` and the connection no `/` |
| `ModelReference.PrintInjective` | packages/arcana-core/arcana/models/gateway.py:532-560 | different printable references print differently |
| `ModelReference.SuggestedNameDoesNotRoundTrip` | packages/arcana-cli/arcana_cli/commands/providers.py:221 | a connection keeping its suggested name `provider/model` cannot be referred to: it parses as another connection |
| `ToolGateway.FreeSuffix` | packages/arcana-core/arcana/tools/gateway.py:121-124 | the suffix search ends, at the least suffix that is not taken |
| `ToolGateway.ToolGateway.AddTool` | packages/arcana-core/arcana/tools/gateway.py:110-126 | one definition: dropped if its plain wire name is already its own, else registered under its plain or suffixed name |
| `ToolGateway.NamedAfterItself` | packages/arcana-core/arcana/tools/gateway.py:38-47 | a server's tool is offered as `server__tool`, a builtin under its own name, unless another tool holds that: then as the first free numbered variant from 2 up |
| `ToolGateway.ToolGateway.ToolsFor` | packages/arcana-core/arcana/tools/gateway.py:74-108 | registry first, then each adapter's subscribed tools; nothing when the model cannot call tools |
| `ToolGateway.ToolGateway.Dispatch` | packages/arcana-core/arcana/tools/gateway.py:128-192 | a name that is not allowed is refused under that name; then bad arguments, a guardrail and a missing adapter refuse in this order; otherwise the first adapter that supports the restored name gets the call, and its result comes back as it was, or a failure if it ran too long or raised |
| `ToolGateway.OfferedExactly` | packages/arcana-core/arcana/tools/gateway.py:96-107 | offered are exactly what the registry resolved and, from each adapter, the tools subscribed to by exact qualified name |
| `ToolGateway.TableIsSound` | packages/arcana-core/arcana/tools/gateway.py:110-126 | wire names are distinct keys of both maps, and each tool is offered under a name that restores its own definition |
| `ToolGateway.EntriesAreKept` | packages/arcana-core/arcana/tools/gateway.py:110-126 | no later definition takes over a wire name or reorders the tools |
| `ToolGateway.EveryDefinitionIsReachable` | packages/arcana-core/arcana/tools/gateway.py:110-126 | no definition is dropped: some wire name restores its qualified name |
| `ToolGateway.OneWireExactly` | packages/arcana-core/arcana/tools/gateway.py:112-116 | each qualified name has exactly one wire name if and only if none is defined again after losing its plain one |
| `ToolGateway.OneWireByClaims` | packages/arcana-core/arcana/tools/gateway.py:112-126 | the same read off the definitions, where no plain name looks like a suffixed one: if and only if no name is defined again that came second to its plain wire name |
| `ToolGateway.LoserIsOfferedTwice` | packages/arcana-core/arcana/tools/gateway.py:115-124 | a concrete list of definitions in which one tool is offered twice |
| `ToolGateway.OfferedNamesHaveNoSlash` | packages/arcana-core/arcana/tools/gateway.py:39-47 | no offered name contains a slash |
| `ToolGateway.OfferedCallsGoHome` | packages/arcana-core/arcana/tools/gateway.py:150-175 | with the offered names allowed: a call reaches the first adapter that supports the very definition offered under its name, under that name, unless its arguments do not parse, a guardrail blocks it or no adapter supports it; a name not offered reaches no adapter |
| `AgentRun.Agent.Run` | packages/arcana-core/arcana/agents/agent.py:146-232 | requests, responses, session records, messages and token totals of a run, however it ends |
| `AgentRun.PromptReachesModel` | packages/arcana-core/arcana/agents/agent.py:159-166 | the first request carries the last forty USER and ASSISTANT messages of the session, each with its own role and text, in order, the prompt last |
| `AgentRun.RequestsExtend` | packages/arcana-core/arcana/agents/agent.py:187-220 | every later request is the one before it, the model's answer with its tool calls, and per call its output, or its error if it failed |
| `AgentRun.EndExactly` | packages/arcana-core/arcana/agents/agent.py:196-232 | an answered run returns the text of its last response; it is answered if and only if that asks for no tool or is the last allowed |
| `AgentRun.TotalsAddUp` | packages/arcana-core/arcana/agents/agent.py:193-194 | token totals add up over the responses, however the run is cut in two |
| `AgentRun.Agent.Loop` | packages/arcana-core/arcana/agents/agent.py:183-220 | the loop follows the specified course; totals are the sums over the responses |
| `AgentRun.Agent.RunCalls` | packages/arcana-core/arcana/agents/agent.py:215-220 | one tool turn and one record per call, in order |
| `AgentRun.RequestsAreBounded` | packages/arcana-core/arcana/agents/agent.py:187-220 | between one and `max_iterations` model calls; the cap is hit exactly when the last allowed response still asks for tools |
| `AgentRun.RunIsWellPaired` | packages/arcana-core/arcana/agents/agent.py:209-220 | in every request each assistant turn with tool calls is followed by exactly one tool turn per call, same ids and order |
| `AgentRun.RecordsMatchTurns` | packages/arcana-core/arcana/agents/agent.py:215-220 | the session's new records, the tool turns the model saw and the calls dispatched correspond one to one, in order, and each record and turn tells what that dispatch gave |
| `AgentRun.ProceedIsCourse` | packages/arcana-core/arcana/agents/agent.py:183-220 | the accumulating loop computes the recursively specified course |
| `Edges.EdgeStore.Upsert` | packages/arcana-core/arcana/memory/edges.py:78-94 | all rows committed, or a prefix left uncommitted in the open transaction |
| `Edges.EdgeStore.ReplaceSource` | packages/arcana-core/arcana/memory/edges.py:96-116 | all or nothing: the replaced table, or the committed one |
| `Edges.EdgeStore.Neighbors` | packages/arcana-core/arcana/memory/edges.py:130-147 | exactly the adjacent ids, each once, those it refers to first |
| `Edges.ReplacedExactly` | packages/arcana-core/arcana/memory/edges.py:96-116 | afterwards the producer's edges are exactly the rows it gave |
| `Edges.SurvivesExactly` | packages/arcana-core/arcana/memory/edges.py:24-27 | another producer's edge survives if and only if its key is not rewritten |
| `Edges.OverwrittenIsLost` | packages/arcana-core/arcana/memory/edges.py:24-32 | an overwritten edge is gone once the producer drops the key |
| `Edges.ReplaceTwiceIsOnce` | packages/arcana-core/arcana/memory/edges.py:96-116 | replacing twice with the same rows is replacing once, up to time stamps |
| `Edges.LastRowWins` | packages/arcana-core/arcana/memory/edges.py:24-27 | of several rows with one key the last is stored |
| `Wikilinks.Resolver.constructor` | packages/arcana-core/arcana/memory/wikilinks.py:159-167 | the two dicts hold, per stem, all notes in order and, per path, the last note |
| `Wikilinks.Resolver.Resolve` | packages/arcana-core/arcana/memory/wikilinks.py:169-179 | resolution as specified over the notes |
| `Wikilinks.WikilinkEdgeExtractor.CollectEdges` | packages/arcana-core/arcana/memory/wikilinks.py:73-113 | the counts, and one edge for each pair of different notes joined by a link |
| `Wikilinks.WikilinkEdgeExtractor.Reindex` | packages/arcana-core/arcana/memory/wikilinks.py:66-122 | the store with the wikilink edges replaced and the report, or the committed store on failure |
| `Wikilinks.TallyAddsUp` | packages/arcana-core/arcana/memory/wikilinks.py:85-96 | links found = resolved + dangling + ambiguous |
| `Wikilinks.CountExactly` | packages/arcana-core/arcana/memory/wikilinks.py:85-96 | each count is the number of link occurrences that came out that way |
| `Wikilinks.StoredEdgesAreTheLinks` | packages/arcana-core/arcana/memory/wikilinks.py:84-114 | the stored wikilink edges are exactly the `references` edges `(a, b)`, `a != b`, for which some link in a note `a` resolves to the note `b`, with confidence 1 and the stamp of the pass |
| `Wikilinks.OthersSurviveExactly` | packages/arcana-core/arcana/memory/wikilinks.py:114 | any other edge survives if and only if it is not a `references` edge between two notes a link now joins |
| `Wikilinks.ReindexTwiceIsOnce` | packages/arcana-core/arcana/memory/wikilinks.py:66-122 | re-indexing an unchanged folder changes only time stamps |
| `Wikilinks.OverwrittenReferenceIsLost` | packages/arcana-core/arcana/memory/wikilinks.py:114 | another producer's edge between linked notes is lost for good when the link goes |
| `Wikilinks.DanglingExactly` | packages/arcana-core/arcana/memory/wikilinks.py:169-179 | a target dangles if and only if no note could be meant |
| `Wikilinks.RefusedExactly` | packages/arcana-core/arcana/memory/wikilinks.py:171-179 | a target is refused as ambiguous if and only if it is a bare name that could mean two notes |
| `Wikilinks.PathsAreGuessed` | packages/arcana-core/arcana/memory/wikilinks.py:164-173 | a path-qualified target stands for the last note with that path |
| `Wikilinks.TwoExtensionsExample` | packages/arcana-core/arcana/memory/wikilinks.py:164-178 | `n.md` beside `n.markdown`: the bare link is ambiguous, the path-qualified one is not |
| `MarkdownFolder.MarkdownFolderAdapter.Discover` | packages/arcana-core/arcana/memory/adapters/markdown.py:238-272 | the eligible files in walk order |
| `MarkdownFolder.MarkdownFolderAdapter.Rescan` | packages/arcana-core/arcana/memory/adapters/markdown.py:214-236 | the documents and the index a scan yields from the index in place |
| `MarkdownFolder.MarkdownFolderAdapter.Search` | packages/arcana-core/arcana/memory/adapters/markdown.py:307-315 | rescan, filter, rank, cut |
| `MarkdownFolder.DiscoveredExactly` | packages/arcana-core/arcana/memory/adapters/markdown.py:238-272 | exactly the visible Markdown files that are no links, match no ignore pattern, can be looked up and are not too large are discovered, each path once |
| `MarkdownFolder.FullParseExactly` | packages/arcana-core/arcana/memory/adapters/markdown.py:274-305 | a full read gives each readable file's path and text, with its change time as creation and its modification time as last access |
| `MarkdownFolder.ScanExactly` | packages/arcana-core/arcana/memory/adapters/markdown.py:223-231 | a scan equals a full re-read if and only if every cached item it uses is still true |
| `MarkdownFolder.IndexExactly` | packages/arcana-core/arcana/memory/adapters/markdown.py:220-235 | an installed index holds exactly the notes of one complete scan, with the stamps seen |
| `MarkdownFolder.IncrementalExactly` | packages/arcana-core/arcana/memory/adapters/markdown.py:214-236 | over any sequence of edits and scans every scan equals a full re-read if and only if no note changes between two scans without its time stamp or size showing it |
| `MarkdownFolder.StaleExample` | packages/arcana-core/arcana/memory/adapters/markdown.py:225-226 | a file edited with size and time stamp kept is served as it was |
| `MarkdownFolder.OverlappingScansAreRight` | packages/arcana-core/arcana/memory/adapters/markdown.py:214-236 | however scans overlap, each equals a full re-read of its own files, provided stamps determine content |
| `MarkdownFolder.SearchIgnoresWalkOrder` | packages/arcana-core/arcana/memory/adapters/markdown.py:336-351 | two lists of the same notes in any order give one answer |
| `MarkdownFolder.WalkOrderIsIrrelevant` | packages/arcana-core/arcana/memory/adapters/markdown.py:214-272 | two walks of one folder, in any orders, give one answer and leave one index |
| `MarkdownFolder.SearchReturnsTheBest` | packages/arcana-core/arcana/memory/adapters/markdown.py:311-366 | only matching notes, in the order of pin, relevance, importance, recency and path, all of them up to the limit, and every matching note left out belongs after all returned |

## Left out

- Token expiry skew, keyring, HTTP, issuer checks, code exchange: the keyring is one cell and the server an oracle.
- ResilientTier.Search: the time budget is not computed; a call that exceeds it is one of the outcomes.
- Router: the per-card resolution of weights and resilience settings; retrieval modes inside a query.
- MemoryFederation: `stream_search` (the same list, consumed lazily), `health_check`, `aclose`.
- MemoryDatabase.Write: the adapter's own promotion to a second store, which the federation supersedes; FTS5 rows.
- MemoryDatabase: closing and reopening a healthy connection, which drops an open transaction; why a statement fails.
- IndexRuns: other overlaps of two uses of one connection than a use between the row and the vector of a write; a
  rollback that fails itself.
- VectorAdapter.Search: `access_count`, warnings and read events; the keyword search behind the fallback is a list.
- Retry loops: tracing, metrics and cost events, which are swallowed on error; task cancellation.
- ToolGateway.Dispatch: which guardrail blocks and what is logged; blocking is a predicate of adapter, name and arguments.
- ToolGateway.ToolsFor: wildcard expansion inside the registry, whose resolution is given as a list.
- Agent.Run: memory retrieval and extraction, the system prompt, session status and duration; the results of one
  round are given per call, not interleaved.
- MarkdownFolder: front-matter parsing, tags and query terms are functions of the text; a file read while it is being
  written.
- Wikilinks: the regular expressions and the trimming of aliases, anchors and extensions.
- Model resolution, adapter caching, embeddings, guardrail folding, audit, cards, worlds and the command line.
- Background jobs: nothing constructs them in the live path.
