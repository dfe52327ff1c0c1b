# Groupio backend: shared state that must stay consistent

Groupio is a group-buying marketplace for apartment buildings. This project models the parts of its
backend where state is shared between requests, workers or graph nodes, and proves what every run of
them keeps. Each component has a value-level model (a step function over events, and runs as
sequences of events) and, where the code changes state in place, a class or method that is proved to
take exactly the model's steps.

| file | component |
|---|---|
| `MarketplaceTables.dfy`, `Marketplace.dfy`, `Participation.dfy`, `MarketplaceDb.dfy` | building counters kept by triggers; joining and leaving offers |
| `TriggerSnapshots.dfy` | the same triggers in transactions that overlap |
| `EscalationQuery.dfy`, `EscalationPages.dfy`, `SafeUpdate.dfy` | SQL built from filter and column records; paging |
| `KeyValueStore.dfy`, `SchedulerLock.dfy`, `RateLimit.dfy` | the Postgres-backed store that replaced Redis |
| `CachedCalls.dfy` | the caching decorator under concurrent calls |
| `CircuitBreaking.dfy`, `LlmCalls.dfy` | circuit breaker and retried LLM calls |
| `Orchestration.dfy`, `OrchestratorNodes.dfy` | the agent workflow graph |
| `Redirects.dfy` | the web middleware |
| `Options.dfy`, `Numbers.dfy`, `Iteration.dfy` | missing values, minimum and maximum, steps taken one after the other |
| `Ranking.dfy`, `AbTest.dfy`, `Pricing.dfy`, `Rounding.dfy` | contractor ranking, A/B assignment, tier prices |

`dafny verify dfyconfig.toml` checks everything.

Modelling choices. The database time is an integer, each SQL statement of the store is one atomic
event and each marketplace transaction one step. SHA-256 is taken to be injective, and JSON encoding
to round-trip. What the language model, the specialists, the LLM provider and the database's choice
among equally ordered rows do is arbitrary. Python floats are exact rationals, and `round` rounds
half to even on them. An enumerated type stands for a fixed set of strings where the code compares
only with those strings. Environment inputs that the code obtains by calling something outside
(clock, LLM reply, whether the database answered) are parameters.

Where the code differs from what it promises:

- The triggers count what their statement's snapshot shows. Transactions on one building that overlap
  leave the counter off by what others committed between the last committer's count and its commit
  (`CounterExactIff`, `OverlappingArrivalsLoseOne`); taken one after the other, they keep it exact
  (`CountersExactAfterEveryRun`).
- `leave_offer` by somebody who is not in the offer still takes one off the counter
  (`LeaveKeepsExactIff`, `StrayLeaveLosesUnit`), so the counter is only a lower bound for the units
  joined; the exact size of the gap is bounded in `ParticipationAfterEveryRun`. The one route that
  calls it checks membership first (src/api/routes/offers.py:510), so a stray leave takes two leaves
  of one user that race.
- `join_offer_atomic` has no capacity guard, and the guard of `join_offer` looks only at the old
  counter. Either keeps the counter within capacity if and only if the units still fit
  (`AtomicJoinKeepsCapacityIff`, `JoinKeepsCapacityIff`); `AtomicJoinPassesCapacity` and
  `LargeJoinPassesCapacity` are states in which they do not, and `CapacityThroughoutIff` says for
  whole runs when the capacity holds.
- Pages of escalations that cover the total list every row once, whatever order the database picks
  among ties, if and only if no page boundary separates rows of the same creation time
  (`PagesTileIff`). Otherwise one row can come twice running (`BoundaryTieRepeats`).
- `set` with `nx` is refused by a row that nobody can read under the key: an expired one or, for
  tokens, one of another prefix or without a value (`NxSucceedsWhenUnreadableIff`). No caller in the
  repository passes `nx`.
- `release_scheduler_lock` has no owner check. The only caller releases what it has just acquired
  (src/workers/scheduler.py:57-76), and for such workers a task is held twice if and only if a holder
  overruns its TTL while another worker tries (`HeldTwiceIffOverrun`). Its late release then also
  frees the next holder's lock (`OverrunLetsTwoIn`).
- The rate limit is per clock minute; over a sliding minute twice the limit passes, and that bound is
  reached (`SlidingWindowBound`, `SlidingWindowBoundIsTight`). The `window` argument is not used.
- Nodes hand whole lists back to an appending reducer, so the message list doubles at every node
  (`ChannelsAfterEveryRun`).
- The router's edge map has no entry for the router itself, so a specialist that suggests the router
  can make the graph raise (`CrashesIff`, `RouterSuggestionCrashes`). No agent does so today: the
  names suggested are constants, namely pricing, payment, support and outreach
  (src/agents/matching.py:132, src/agents/pricing.py:165, src/agents/payment.py:367,
  src/agents/vetting.py:153, src/agents/influencer.py:120).
- The intent map sends `notification_query` to the notification agent, but the router never writes
  that intent, so only a suggestion could lead there (`NotificationOnlyBySuggestion`); no agent
  suggests it.
- A role outside the five known ones can be redirected for ever (`StrangerEndsIff`,
  `GuestNeverEnds`).
- The seasonal factor is applied after the market floor. A price keeps its floor if and only if there
  is no factor or the largest group's price, multiplied, still rounds to the floor (`FloorKeptIff`).
  It always does where the market reports no minimum and the base price is above 0.05
  (`UnknownMinimumKeepsFloor`); at a floor equal to the base price no factor below one does
  (`TightFloorBroken`).

## Model

| member | source | states |
|---|---|---|
| Marketplace.CountersExactAfterEveryRun | alembic/versions/020_missing_fk_indexes_and_triggers.py:85-174 | After any sequence of inserts, moves, deletes (of one row or many), joins, leaves and refused requests, every building's resident_count equals its resident rows and its active_offers its offers with status pending or active |
| Marketplace.OtherBuildingsUnchanged | alembic/versions/020_missing_fk_indexes_and_triggers.py:88-123 | A step changes no building that neither gains nor loses a counted row, and creates or removes none |
| Marketplace.BackfillThenEveryRunExact | alembic/versions/020_missing_fk_indexes_and_triggers.py:176-191 | The migration's back-fill makes arbitrary stored counters exact, from then on they stay exact, and on exact counters it changes nothing |
| Marketplace.UntouchedResidents | alembic/versions/020_missing_fk_indexes_and_triggers.py:107-120 | A building outside the old and new buildings of the rows a statement moves keeps exactly its resident rows |
| Marketplace.UntouchedOffers | alembic/versions/020_missing_fk_indexes_and_triggers.py:140-163 | A building outside the old and new buildings of the changed offers keeps exactly its pending and active offers |
| Marketplace.TriggersSelect | alembic/versions/020_missing_fk_indexes_and_triggers.py:145-160 | What the triggers count are exactly the building's residents, and its offers with status pending or active |
| TriggerSnapshots.CounterExactIff | alembic/versions/020_missing_fk_indexes_and_triggers.py:88-123 | However inserts and deletes of one building's residents overlap, the counter equals the rows if and only if as many arrivals as departures were committed between the last committer's count and its commit; otherwise it is off by exactly the difference |
| TriggerSnapshots.OverlappingArrivalsLoseOne | alembic/versions/020_missing_fk_indexes_and_triggers.py:92-99 | Two overlapping arrivals after which two residents are counted as one |
| Participation.ParticipationAfterEveryRun | src/databases/postgres.py:1152-1208 | Over every run: one row per user and offer; 0 <= counter <= units joined; the counter lags the units by at most its initial lag plus one per leave by a non-participant |
| Participation.CounterExactWithoutStrays | src/databases/postgres.py:1190-1208 | From an exact counter, a run in which only participants leave ends with the counter equal to the units joined |
| Participation.LeaveKeepsExactIff | src/databases/postgres.py:1193-1208 | A leave keeps an exact counter exact if and only if the user is a participant or no units are joined at all |
| Participation.StrayLeaveLosesUnit | src/databases/postgres.py:1193-1208 | A concrete exact counter that a leave by a stranger makes one too small |
| Participation.LeaveUndoesJoin | src/databases/postgres.py:1152-1208 | Leaving right after a successful join restores every table, building counters included |
| Participation.RefusedChangesNothing | alembic/versions/035_payment_idempotency_key.py:65-84 | A refused join is rolled back completely, a repeated atomic join reports false and changes nothing, and a leave is never refused |
| Participation.ResidentStatementResult | src/databases/postgres.py:753-827 | A statement on residents is refused exactly for a taken id or an unknown building, and otherwise adds, overwrites or removes exactly its rows |
| Participation.OfferStatementRefusedIff | alembic/versions/020_missing_fk_indexes_and_triggers.py:135-174 | A statement on offers is refused exactly for a taken id or an unknown building |
| Participation.OfferStatementResult | alembic/versions/020_missing_fk_indexes_and_triggers.py:135-174 | An accepted statement on offers changes exactly its rows, starts new offers at zero, keeps other counters, and removes the participants of exactly the deleted offers |
| Participation.JoinResult | src/databases/postgres.py:1154-1170 | A join succeeds exactly for a newcomer to an open offer below capacity; then the user has one row of those units, the counter is below capacity plus those units, nothing else changes |
| Participation.AtomicJoinResult | alembic/versions/035_payment_idempotency_key.py:56-86 | The SQL function succeeds exactly for a newcomer to an open offer, reports exactly the users already in it, and has the same effect |
| Participation.CapacityThroughoutIff | src/databases/postgres.py:1162-1170 | Over every run of all requests, atomic joins included, every counter is within capacity at every point if and only if each admitted join fitted and each written capacity covered its counter |
| Participation.StepWithinCapacityIff | src/databases/postgres.py:1152-1208 | The same for one request of any kind |
| Participation.CapacityAfterEveryRun | src/databases/postgres.py:1162-1170 | With guarded joins of at most u units and atomic joins that fit, no counter passes capacity by u or more over any run; with single-unit joins it never passes capacity |
| Participation.JoinKeepsCapacityIff | src/databases/postgres.py:1162-1170 | An admitted guarded join keeps every counter within its capacity if and only if its units fit |
| Participation.AtomicJoinKeepsCapacityIff | alembic/versions/035_payment_idempotency_key.py:76-82 | An admitted atomic join keeps every counter within its capacity if and only if its units fit |
| Participation.LargeJoinPassesCapacity | src/databases/postgres.py:1162-1170 | A concrete state in which one guarded join of two units passes the capacity |
| Participation.AtomicJoinPassesCapacity | alembic/versions/035_payment_idempotency_key.py:76-82 | A concrete state in which the SQL function fills an offer beyond its capacity |
| MarketplaceDb.Database.SyncBuildingResidentCount | alembic/versions/020_missing_fk_indexes_and_triggers.py:88-123 | The trigger body sets resident_count to the number of residents for exactly the building a row came into or left, and leaves all others alone |
| MarketplaceDb.Database.SyncBuildingActiveOffers | alembic/versions/020_missing_fk_indexes_and_triggers.py:135-166 | The trigger body sets active_offers to the number of pending and active offers for exactly the buildings the changed offer was or is in |
| MarketplaceDb.Database.ExecuteOnResidents | src/databases/postgres.py:753-827 | A whole statement with its row triggers in any order is one model step |
| MarketplaceDb.Database.JoinOffer | src/databases/postgres.py:1152-1170 | The insert, the guarded increment with its trigger, and the rollback are one model step |
| MarketplaceDb.Database.JoinOfferAtomic | alembic/versions/035_payment_idempotency_key.py:56-86 | Insert-or-ignore, increment or raise is one model step |
| MarketplaceDb.Database.LeaveOffer | src/databases/postgres.py:1190-1208 | Reading the units, deleting the row and the floored decrement are one model step |
| EscalationQuery.BuildWhere | src/databases/postgres.py:2047-2068 | For every filter record and row the generated WHERE with its arguments holds exactly when status, priority, source agent, reason, assignee and both dates each pass their own filter, and the placeholders are 1..n in argument order |
| EscalationQuery.AppendClause | src/databases/postgres.py:2053-2067 | Appending a clause with its arguments leaves every earlier clause's meaning alone |
| EscalationQuery.InMeaning | src/databases/postgres.py:2052-2055 | The IN list selects exactly the rows whose column is one of the values; a NULL column is not selected |
| EscalationPages.BuildListQuery | src/databases/postgres.py:2069-2078 | LIMIT and OFFSET take the last two arguments, with the page size and the preceding rows, without disturbing the filter arguments |
| EscalationPages.PagesTileIff | src/databases/postgres.py:2069-2079 | For pages that cover the total, every possible answer lists every matching row exactly once, newest first, if and only if no page boundary separates rows of the same creation time |
| EscalationPages.PagesTile | src/databases/postgres.py:2069-2079 | With distinct creation times, pages that cover the total together list every matching row exactly once, newest first, and the count query gives their number |
| EscalationPages.BoundaryTieRepeats | src/databases/postgres.py:2073-2078 | A tie across any page boundary allows answers in which one row ends a page and starts the next |
| EscalationPages.OrderDeterminedIff | src/databases/postgres.py:2073-2078 | ORDER BY created_at DESC allows only one order of the matching rows if and only if their creation times are distinct |
| SafeUpdate.BuildSafeUpdate | src/databases/postgres.py:311-333 | Refused exactly for an unsafe column name; the statement fails exactly without columns to set or with one the table lacks, and otherwise overwrites the given columns, and only them, of exactly the row with the given id |
| SafeUpdate.SafeColumnIff | src/databases/postgres.py:19-19 | The names let through are a letter or underscore followed by letters, digits and underscores, perhaps with one newline behind |
| KeyValueStore.CacheRefinesTtlMap | src/databases/pg_store.py:282-306 | For cache keys, after any history, get returns the value of the last set that took effect exactly while it is neither deleted nor expired; a set with nx takes effect exactly if none came since the last delete |
| KeyValueStore.NxSucceedsIff | src/databases/pg_store.py:221-293 | After any history nx succeeds on a cache key exactly when it was not set since its last delete, and on a token key exactly when the token has no row: none that a set under any prefix created and a delete under that same prefix has not removed |
| KeyValueStore.NxSucceedsWhenUnreadableIff | src/databases/pg_store.py:221-293 | On both routes nx succeeds exactly when nothing is readable, if and only if the key has no row that is expired, of another prefix or without a value |
| KeyValueStore.NxBlockedByOtherKind | src/databases/pg_store.py:221-233 | A token set under one prefix reads as absent and yet refuses nx under another |
| KeyValueStore.NxBlockedByExpiredRow | src/databases/pg_store.py:282-293 | A history after which a key reads as absent and yet refuses an nx set |
| KeyValueStore.TokenReadsItsCreator | src/databases/pg_store.py:221-246 | For token keys, after any history, get returns the value of the set that created the token's row, under its prefix only, until the latest effective set's expiry |
| KeyValueStore.CreatorMeaning | src/databases/pg_store.py:421-426 | A set created the token's present row if and only if it came when the token had no row and no delete under its own prefix followed |
| KeyValueStore.ForeignDeleteHasNoEffect | src/databases/pg_store.py:421-426 | Deleting a token under another prefix changes nothing |
| KeyValueStore.RouteIsExact | src/databases/pg_store.py:43-74 | Each kind and token has exactly one key, and every other key is stored whole in the response cache |
| KeyValueStore.PrefixesAre | src/databases/pg_store.py:43-66 | The three token prefixes, and refresh and document keys as cache keys |
| KeyValueStore.DayByDefault | src/databases/pg_store.py:243-306 | Without a time to live, or with zero, a value is kept for a day |
| KeyValueStore.PostgresStore.GetKey | src/databases/pg_store.py:316-400 | Whatever calls came before, a read returns a value if and only if the history of calls says that the key reads it |
| KeyValueStore.PostgresStore.SetKey | src/databases/pg_store.py:184-306 | One call is one event of the history and succeeds if and only if nx is not asked for or the history leaves the key without a row |
| SchedulerLock.GrantedIff | src/databases/pg_store.py:1010-1022 | An attempt succeeds if and only if the task's latest acquisition was released since or is more than its TTL ago |
| SchedulerLock.MutualExclusion | src/databases/pg_store.py:1000-1022 | Under any interleaving, two acquisitions of a task with no release between them are strictly more than the first one's TTL apart |
| SchedulerLock.RowExistsAtTryLock | src/databases/pg_store.py:1002-1009 | A worker's UPDATE always finds the row its own insert made sure of, whatever others did between |
| SchedulerLock.RowStays | src/databases/pg_store.py:1002-1009 | A task's row, once created, is there after every continuation |
| SchedulerLock.LastRunIsLatestGrant | src/databases/pg_store.py:1010-1020 | last_run_at is the time of the latest acquisition, and NULL exactly if there was none |
| SchedulerLock.HeldTwiceIffOverrun | src/workers/scheduler.py:51-76 | For any workers that release only what they acquired, a task is ever held twice if and only if some holder overran its TTL while somebody tried for the task |
| SchedulerLock.NoTwoHolders | src/workers/scheduler.py:51-76 | If every release also comes within the TTL, nobody acquires a task within the TTL of an acquisition that its holder has not released; workers that stop without releasing included |
| SchedulerLock.OverrunLetsTwoIn | src/databases/pg_store.py:1048-1058 | A history in which all release only their own lock, one too late, and two workers hold the task within its TTL |
| SchedulerLock.SchedulerLocks.AcquireSchedulerLock | src/databases/pg_store.py:1000-1022 | The two statements extend the history by two events and report exactly whether the lock was acquired |
| RateLimit.AllowedIffAmongFirst | src/databases/pg_store.py:477-487 | An answered request is allowed if and only if it is among the first `limit` of its key in its clock minute |
| RateLimit.ExactlyLimitPerMinute | src/databases/pg_store.py:477-487 | In each minute exactly min(requests, limit) requests of a key are allowed, whatever other keys do |
| RateLimit.EarliestAreAllowed | src/databases/pg_store.py:492-509 | Whenever a request is allowed, so was every earlier one of its key and minute |
| RateLimit.SlidingWindowBound | src/databases/pg_store.py:477-512 | Any span of at most sixty seconds holds at most twice the limit |
| RateLimit.UnansweredAreFree | src/databases/pg_store.py:492-512 | A request during a database error is allowed, and the history without it leaves the same counters |
| RateLimit.SlidingWindowBoundIsTight | src/databases/pg_store.py:477-512 | For every limit there is a history with twice the limit inside one microsecond |
| CachedCalls.EveryResultIsComputed | src/databases/cache.py:68-94 | Over every interleaving, failure and eviction, a finished call returns a value that a call with the same key computed and stored less than its ttl before, if its lookup can reach one, and otherwise exactly what it computed itself |
| CachedCalls.PureFunctionsAreTransparent | src/databases/cache.py:68-94 | If the outcome depends on the key alone, every finished call returns what the undecorated function would |
| CachedCalls.HitIffFreshlyComputed | src/databases/pg_store.py:787-853 | A lookup hits a value if and only if a call with the key computed it, stored it less than its ttl ago, and it was neither overwritten nor removed since |
| CachedCalls.FailuresLeaveNoTrace | src/databases/cache.py:82-92 | A call whose lookup and store reached no database is invisible to the stored rows and to every other call |
| CachedCalls.ResponseCache.Call | src/databases/cache.py:68-94 | A cached call, with any other calls in between, hits exactly when a freshly computed value is within reach and returns it, and otherwise returns exactly the function's own outcome; only a returned value is ever stored, never None |
| CircuitBreaking.BreakerCountsTrailingFailures | src/agents/base.py:57-67 | Over every run the failure count is the failures since the last success, and the breaker is closed if and only if that is below the threshold |
| CircuitBreaking.AdmittedIff | src/agents/base.py:47-55 | At any point of any run a call is let through if and only if trailing failures are below the threshold or the recovery timeout has passed since the latest failure |
| LlmCalls.Agent.CallLlm | src/agents/base.py:223-283 | The breaker sees exactly what the attempts account for; at most three attempts, of which only rejections and transient failures are repeated; one failure is recorded per transient failure and none for a rejection; once answered, the breaker is closed without failures; one permanent error is counted once |
| LlmCalls.Agent.Try | src/agents/base.py:335-366 | How an attempt ends follows from the breaker's history, the cache and the provider; its own success is the last thing the breaker sees of an answer, its own failure of a transient error |
| Orchestration.ChannelsAfterEveryRun | src/models/agent_state.py:8-22 | Over every run the last user message is the submitted one, the last action is the one most recently produced, the distinct actions are exactly those produced; messages double per node |
| Orchestration.FollowUpsReadTheirSpecialist | src/orchestration/graph.py:231-254 | In every run each router visit but the first directly follows a specialist that acted, needed no human and asked for a follow-up, and the visit's last_agent_handoff is that specialist's action |
| Orchestration.SpecialistDecidesNext | src/orchestration/graph.py:382-404 | In every run the node after a specialist is decided by that specialist's answer and its position alone, although the action list holds every earlier action many times over |
| Orchestration.EveryRunEnds | src/orchestration/graph.py:153-229 | Whatever the specialists answer, a run is over after 13 node executions with at most 6 router visits |
| Orchestration.EscalationAfterEveryRun | src/orchestration/graph.py:382-477 | Below the cap a human is needed at the end if and only if the handoff ran, once, and its message is the response; at the cap no handoff runs; the response is missing only for an explicit null |
| Orchestration.CrashesIff | src/orchestration/graph.py:349-372 | At any point of any run the graph raises if and only if it is a router visit whose classification raises, or whose specialist just before suggested the router and the suggestion is followed |
| Orchestration.RouterSuggestionCrashes | src/orchestration/graph.py:178-222 | A three-node run from any short message that raises because a specialist suggested the router |
| Orchestration.RoutedAfterEveryRun | src/agents/router.py:119-128 | In every state of every run after the first router visit the intent is one of the router's, the confidence is in [0, 1], and work is only at a registered agent chosen by suggestion, intent or default |
| Orchestration.RouterDecidesNext | src/orchestration/graph.py:335-380 | In every run a router visit that does not raise goes where message, reply and preceding action say: below the threshold to support, or to the answer if it asks back; else to the suggested agent if the suggestion counts; else to the agent of the intent, by a table of the thirteen intents, or to support |
| Orchestration.IntentsAre | src/orchestration/graph.py:66-82 | The router's intents and the agent of each |
| Orchestration.AgentNamedIs | src/orchestration/graph.py:93-113 | The registered agents by name, payment only where it can be imported |
| Orchestration.StripMeaning | src/orchestration/graph.py:352-361 | Stripping takes ASCII white space off both ends and nothing else |
| Orchestration.NotificationOnlyBySuggestion | src/orchestration/graph.py:66-77 | In every run the notification agent works only if a specialist suggested it, despite its entry in the intent map |
| Orchestration.CooperativeRunsNeverCrash | src/orchestration/graph.py:178-222 | If no specialist suggests the router and the router agent does not raise, every conditional edge of every run has a target |
| Orchestration.RoutesToRegisteredSpecialist | src/orchestration/graph.py:367-380 | Work only ever goes to a registered specialist |
| Orchestration.ClarificationIsTheAnswer | src/orchestration/graph.py:341-348 | A clarifying question by the router ends the run with that question as the response |
| OrchestratorNodes.RouteMessage | src/orchestration/graph.py:244-255 | The node's in-place assignments return the state the model says, with the agent's router reply |
| OrchestratorNodes.RunRouterAgent | src/agents/router.py:53-168 | The router leaves an intent of its map, a confidence in [0, 1] and either the action list as it was or one clarifying action, and touches nothing else of the modelled state |
| OrchestratorNodes.RunAgentSafe | src/orchestration/graph.py:118-151 | The agent's one action and escalation are passed on; a raise leaves one error action that asks for nothing more, and no escalation |
| OrchestratorNodes.HandoffToHuman | src/orchestration/graph.py:406-443 | The handoff leaves one escalation action whose response names the ticket |
| OrchestratorNodes.FindLastUserMessage | src/agents/base.py:368-373 | The backward scan finds the last user message |
| OrchestratorNodes.FormatFinalResponse | src/orchestration/graph.py:445-477 | The last action's response becomes the final one, an explicit null leaves none, and without an entry a stock response is given, a handoff exactly when a human is needed |
| Redirects.AtMostTwoHops | apps/web/middleware.ts:99-178 | For every path, redirect parameter and known or absent role, at most two redirects lead to a page of areas that are for the user, an unguarded path or, for administrators, the admin application |
| Redirects.StrangerEndsIff | apps/web/middleware.ts:116-150 | For an unknown role the chain ends if and only if the page or the redirect target is free; otherwise it never ends |
| Redirects.GuestNeverEnds | apps/web/middleware.ts:116-150 | A concrete cookie and page whose redirects never end |
| Redirects.RoleImpliesAuthenticated | apps/web/middleware.ts:72-97 | Who counts as authenticated, and that a role hint is the cookie's, non-empty, and only kept for an authenticated user |
| Redirects.ServedIff | apps/web/middleware.ts:99-187 | A page is served if and only if it is guarded at all, the user is signed in where that is asked and has a role each of its areas is for, it is no sign-in page for somebody signed in, and not the administrators' shortcut |
| Redirects.ServedPassesGates | apps/web/middleware.ts:107-171 | A page is only served to a user who is signed in where that is asked and has a role each of its areas is for |
| Redirects.GateIffNotAllowed | apps/web/middleware.ts:140-170 | The gates send away exactly the roles that one of the path's areas is not for |
| Redirects.SentHome | apps/web/middleware.ts:140-170 | A known role is sent to its own dashboard from every area that is not for it |
| Redirects.SignedInMovesOn | apps/web/middleware.ts:114-130 | From the sign-in pages a signed-in user goes to the redirect parameter, the admin application or the dashboard of the role |
| Redirects.AskedToSignIn | apps/web/middleware.ts:107-112 | A visitor who is not signed in is sent from every guarded page to the login page with the way back |
| Redirects.ResidentRoutesAre | apps/web/middleware.ts:1-50 | The areas for residents |
| Redirects.Middleware | apps/web/middleware.ts:55-190 | The sequence of early returns decides as the model does, for every cookie state |
| Ranking.ScoreAndRank | src/agents/matching.py:204-272 | Every contractor of either list exactly once, with the scores its latest results give it, in non-increasing order, ties in order of first appearance with semantic hits first |
| Ranking.SortDescending | src/agents/matching.py:271-272 | Sorted, a permutation, ties in the order they came |
| Ranking.OverallInUnit | src/agents/matching.py:17-24 | With component scores in range every overall score lies in [0, 1] |
| Ranking.ShownScores | src/agents/matching.py:17-24 | The weights, and how each shown score is rounded |
| Ranking.GraphScoreMeaning | src/agents/matching.py:249-251 | The graph score is the success rate raised by a twentieth per project, up to one |
| AbTest.ExactShares | src/agents/outreach.py:90-99 | Exactly min(100, C_i+1) - min(100, C_i) of the 100 residues select the i-th variant, the rest none |
| AbTest.ShareOfVariant | src/agents/outreach.py:93-97 | With distinct names a variant's name is returned for exactly its share |
| AbTest.ShareOfControl | src/agents/outreach.py:93-99 | A variant named control also gets all unselected residues |
| AbTest.ControlGetsTheRest | src/agents/outreach.py:99-99 | Without such a variant control gets exactly the unselected residues |
| AbTest.AssignVariant | src/agents/outreach.py:85-99 | The loop returns the first variant whose running total exceeds the residue |
| Pricing.LargerTiersNeverCostMore | src/agents/pricing.py:244-306 | After floor, season and both roundings a larger tier never costs more than a smaller one |
| Pricing.TierBounds | src/agents/pricing.py:261-279 | Before the season a tier is at least the rounded floor and, if the floor is at most the base price, at most the rounded base price |
| Pricing.FloorKeptIff | src/agents/pricing.py:287-306 | For a given price, market, category and season every tier keeps the market floor if and only if there is no factor or the largest group's price times the factor still rounds to the floor |
| Pricing.UnknownMinimumKeepsFloor | src/agents/pricing.py:254-306 | Where the market reports no minimum, no season takes a base price above 0.05 below its floor |
| Pricing.TightFloorBroken | src/agents/pricing.py:287-306 | A concrete price and market whose floor every factor below one breaks |
| Pricing.FloorSurvivesSeasonIff | src/agents/pricing.py:287-306 | The market floor holds after the season for all prices and markets at once if and only if the factor is at least one |
| Pricing.CalculateTiers | src/agents/pricing.py:244-285 | Tiers, prices, and flags that are shared by all tiers: shown exactly for discounted prices under the floor and for final prices above 1.3 times the average |
| Pricing.TierOfSize | src/agents/pricing.py:20-25 | Groups of three and more have exactly one tier, smaller ones none, with the discount of that tier |
| Pricing.SeasonsByMonth | src/models/offer.py:211-219 | The factor of every category in every month |
| Pricing.ApplySeasonalAdjustments | src/agents/pricing.py:287-306 | In place, only prices change, by the factor of the category in the month |

## Left out

- Supabase/PostgREST branches: several requests to an external service per call; only the asyncpg statements, the SQL function and the triggers are modelled.
- Overlapping marketplace transactions: apart from TriggerSnapshots, each transaction is one atomic step; active_offers, moves between buildings and the participant counter are not modelled under overlap.
- Direct writes to counter columns (`update_offer`, `update_building`), creation and deletion of buildings, the users table with its foreign keys, and 32-bit overflow of counters.
- Marketplace.OtherBuildingsUnchanged: takes exact counters as given, because a trigger also repairs a wrong counter of the building it visits.
- Participation.ParticipationAfterEveryRun: unit counts are at least one, as the API model demands (src/models/offer.py:119).
- KeyValueStore.CacheRefinesTtlMap: rows written through cache_set under the same key are not part of it; the decorator's keys carry a digest, so they do not meet keys given to set.
- KeyValueStore.TokenReadsItsCreator: values are user ids in the canonical text that the cast to UUID produces; a call whose insert raises, for a malformed or unknown user, is not an event of the history, and deleting a user, which cascades to tokens, is left out. auth_tokens.id is NOT NULL without a default in the only migration that creates it (alembic/versions/042_remove_redis_pg_tables.py:75) and neither INSERT names it, so under that schema every new token insert raises; the model is of a table that fills the id.
- RateLimit.ExactlyLimitPerMinute: counts answered requests; a request during a database error is allowed without being counted.
- CachedCalls.EveryResultIsComputed: values are compared as stored; how JSON changes a Python value is not modelled.
- LlmCalls.Agent.CallLlm: exponential waits are arbitrary clock advances; LLM cache contents and token metrics are not modelled.
- Orchestration.EveryRunEnds: runs start from the default initial state; extra state fields passed by a caller are not modelled.
- Orchestration.Step: context loading, retrieval, ticket creation and validation at the boundaries appear only through arbitrary inputs; response texts are abbreviated; the graph engine's own recursion limit is not modelled.
- Orchestration.Strip: strips ASCII whitespace only.
- Redirects.AtMostTwoHops: role strings that name properties every JavaScript object inherits are not distinguished from other unknown roles; response headers are not modelled.
- Ranking.ScoreAndRank: contractor ids are taken as already read from the nested result dictionaries; names and descriptions are not carried.
- Pricing.CalculateTiers: the market position number is not modelled; the shared flag list is modelled by its final contents.
- LLM prompts, embeddings, Neo4j, Qdrant and Pinecone queries, RabbitMQ, the outbox and its dispatcher, row-level security, the migration graph, PII redaction, notification dispatch, page components: I/O or declarative text.
- Login lockout, JWT denylist, conversation messages, trust scoring: each is one statement or one formula, and no later step depends on it within these components.
