# Entity resolution: decisions, cluster sizes, reviews, pages, doorbells

The Entity Resolution Service keeps one decision document per entity-mention triad. Engine
outcomes, provisional drafts and curators write to it through separate atomic database steps;
a counter projection, a review flag, an audit log and paginated readers all have to stay
consistent with it although nothing spans two steps. This project models those steps, lets any
number of calls interleave them, and proves what survives.

Run `dafny verify dfyconfig.toml` in this directory.

## How it is laid out

| file | what it models |
|---|---|
| `Common.dfy` | optional values, identifiers, instants, sizes of finite sets |
| `Decisions.dfy` | the decision document, the filters guarding its writes, the repository |
| `ClusterSizes.dfy` | the counter projection and its shift |
| `StoreCalls.dfy` | one `store_decision` call cut at every database access |
| `DecisionStore.dfy` | the service method, and delivery histories of one mention |
| `World.dfy` | the shared database: store calls and curator calls interleaved step by step |
| `StoreHistory.dfy`, `ClusterIndex.dfy`, `ReviewProtocol.dfy`, `FlagExactness.dfy`, `OneWinner.dfy` | what every run of that machine keeps |
| `Schedules.dfy` | calls running alone: the machine against the methods |
| `DriftLedger.dfy` | every interleaving of every call, overlapping ones included: which steps put the counter projection wrong |
| `IndexDrift.dfy`, `EarlyReaders.dfy`, `InsertRaces.dfy` | two overlapping calls on one mention, by how they cross, and exactly when the projection survives it |
| `LateFallback.dfy` | a run after which the review flag and the audit log disagree |
| `Curation.dfy` | the curator commands |
| `ReviewBackfill.dfy`, `ClusterScripts.dfy`, `Statistics.dfy` | the scripts and statistics that recompute or read derived data |
| `Keyset.dfy`, `Traversals.dfy`, `LivePaging.dfy`, `Listings.dfy`, `Refresh.dfy` | keyset pages, whole traversals, pages under concurrent writes, the queries, the refresh cycle |
| `Resolution.dfy`, `Drafts.dfy`, `Verdicts.dfy` | resolve, wait and notify: the interleaved machine, what becomes of a provisional draft in it, and what its verdicts mean |
| `Doorbells.dfy` | whom an integrated response wakes, and resolve and outcome calls left alone |
| `Notification.dfy`, `Coordinator.dfy` | the methods of one instance |

Objects the service updates in place are classes whose methods are proved against functions or
predicates over their fields. Interleavings are runs of `World.Step` and `Resolution.Step`: an
event names the call that moves next and carries the choices left to the environment (clock
readings, which of two unordered counter updates comes first, whether an insert race raises,
whether a backend answers, which doorbells arrive). Theorems about runs quantify over every
list of events. A call left alone does in the machine exactly what the corresponding method
promises: `Schedules` shows it of store and curator calls, `Doorbells` of outcome and resolve calls.

## Assumptions

- `$lt` and `$gt` against a value match only documents whose field is present and not null;
  `$gt: None` matches exactly the documents whose field is not null; a null field and an absent
  one are the same.
- The identifier of a decision is a function of its triad, injective on the triads in use. The
  code hashes the three fields concatenated without a separator
  (`src/ers/commons/adapters/provisional_id.py:25`), so this is a real assumption. The machines
  name a mention by its decision identifier; the review backfill, which derives the identifier
  itself, takes the derivation as a parameter and states the injectivity as a precondition. The
  waiter's key is the same concatenation, so in `Resolution` one key stands for both.
- Identifiers are totally ordered; the empty string is the least. Times and scores are reals.
  Clocks are parameters of each step.
- Each single-document update is atomic, a bulk write is as many atomic updates as it has
  operations, and decision documents are never deleted.
- `decode_cursor` inverts `encode_cursor`, so a cursor is its pair of sort value and id.
- A doorbell that was published may be delivered any number of times, later or never. The event
  of a key is dropped from a waiter only when no call holds it.

## Where the documentation and the code differ

The model follows the code.

- The API reference says that `reviewed_since_placement` is true if and only if a curator action
  is dated after the placement boundary (`docs/api-docs/curation/index.adoc:2196`). One direction
  holds in every run (`ReviewProtocol.ReviewStateIsVouched`). The other fails in two ways. A
  placement accepted late, dated before an action already counted, clears the flag although that
  action postdates it. And a placement that comes between the two guarded updates of a curator
  call lets the second update count an action dated after the boundary without claiming the slot
  (`LateFallback.LateFallbackBreaksFlag`). `FlagExactness.StepDecidesAgreement` shows that no other
  step breaks the sentence and which steps make it true again; `FlagExactness.FlagAgreesExactly` and
  `FlagExactness.DocumentedThroughoutExactly` carry this over runs, and
  `FlagExactness.FlagMeansReviewed` proves the sentence for runs whose placements postdate the
  logged actions.
- A losing insert is documented to raise
  (`src/ers/resolution_decision_store/adapters/decision_repository.py:415-416`); on a row that is
  already there `$setOnInsert` writes nothing and returns the winner's row, and the service then
  counts the mention a second time (`InsertRaces.InsertRaceExactly`).
- A provisional outcome is documented to mean that ERS wrote its own draft, and a canonical one
  that the engine's decision was there first
  (`src/ers/resolution_coordinator/services/resolution_coordinator_service.py:139-141` and
  `302-304`). Neither half holds. A draft whose insert loses the race may be handed the engine's row
  and returns it as provisional: `Verdicts.ProvisionalMeansDraftedOrHanded` proves that this is the
  only exception to the first half, `Verdicts.EngineRowCalledProvisional` gives a run. A draft
  rejected by any row returns that row as canonical, even if it is another call's draft:
  `Verdicts.CanonicalMeansReadOrRejected` states exactly when an answer is canonical,
  `Verdicts.OtherDraftCalledCanonical` gives a run without any engine outcome.
- The size index is documented never to persist a negative count nor to let statistics see a row of
  size zero
  (`src/ers/resolution_decision_store/adapters/cluster_size_index.py:57-60`). Its delete is a
  separate step, so both can be seen before it; `DriftLedger.DriftExactly` shows that no such row is
  left once all calls have ended, whatever overlaps.
- `upsert_decision` says that the choice of path is based on the database state
  (`src/ers/resolution_decision_store/adapters/decision_repository.py:534-535`); a caller's
  `existing` hint is trusted without a read.
- `query_decisions_delta` says that without a marker all decisions of the source are returned
  (`src/ers/resolution_decision_store/services/decision_store_service.py:160-161`); only those
  updated at least once are.
- The refresh coordinator says that the marker advances after each page
  (`src/ers/resolution_coordinator/services/bulk_refresh_coordinator_service.py:22`); it advances
  on the last one only.
- The replica that takes in a response is documented to publish it so that all the others see it
  (`INSTALL.md:139-146`). It publishes only when nobody waits on it for the mention
  (`src/ers/ers_rest_api/entrypoints/api/app.py:86-91`), so of two calls waiting on two replicas one
  may be left to its time-out (`Doorbells.UnreachedCallIsNotRung`).
- The verify script's advice to run the backfill does not help once no decision names a cluster:
  the backfill then returns before its stale delete (`ClusterScripts.RepairExactly`).

## Model

| member | source | states |
|---|---|---|
| Decisions.OlderThan | src/ers/resolution_decision_store/adapters/decision_repository.py:481-487 | the flat two-branch filter, read with the operators' null rules, matches exactly the rows whose placement boundary (`updated_at`, else `created_at`) is strictly before the incoming time |
| Decisions.DecisionRepository.FindById | src/ers/resolution_decision_store/adapters/decision_repository.py:583-595 | the stored row of the id, or nothing exactly when there is none |
| Decisions.DecisionRepository.ExecuteInsert | src/ers/resolution_decision_store/adapters/decision_repository.py:433-440 | a genuine insert leaves `updated_at` and the counter absent and the flag false; an existing row is returned untouched |
| Decisions.DecisionRepository.ExecuteUpdate | src/ers/resolution_decision_store/adapters/decision_repository.py:451-495 | writes exactly when the row's boundary is before the incoming time, dates the row with it, resets the flag, keeps counter and `created_at`; otherwise changes nothing |
| Decisions.DecisionRepository.UpsertDecision | src/ers/resolution_decision_store/adapters/decision_repository.py:506-581 | for every combination of row and hint: when the write is stored and what the row becomes, when it is rejected as stale, and that a hint about a missing row is an operation failure |
| Decisions.DecisionRepository.RecordReview | src/ers/resolution_decision_store/adapters/decision_repository.py:597-680 | counts exactly when the row exists with its flag not set; the flag ends up set exactly when the action is dated after the boundary; the placement is untouched |
| ClusterSizes.ClusterSizeIndex.Shift | src/ers/resolution_decision_store/adapters/cluster_size_index.py:38-104 | the losing cluster's row loses the amount or disappears at zero or below and is never created, the gaining one's grows or appears, all others stay; equal clusters are a no-op |
| ClusterSizes.ClusterSizeIndex.GetSize | src/ers/resolution_decision_store/adapters/cluster_size_index.py:106-122 | the stored size, zero for an absent row |
| DecisionStore.DecisionStoreService.StoreDecision | src/ers/resolution_decision_store/services/decision_store_service.py:37-103 | the row becomes what one delivery makes of it: the placement handed in, as many leading candidates as the configured maximum allows, the date of the call; unchanged outcomes short-circuit, older ones are stale, and the index is shifted exactly by an accepted change of cluster |
| DecisionStore.StoredByAMessage | src/ers/resolution_decision_store/services/decision_store_service.py:68-94 | after any delivery history the stored outcome and boundary are those of one delivered message |
| DecisionStore.GreatestWins | src/ers/resolution_decision_store/services/decision_store_service.py:68-94 | if the top outcome is dated once, any history containing the top message, in any order with repetitions, ends with it |
| DecisionStore.OlderTwinBreaksConvergence | src/ers/resolution_decision_store/services/decision_store_service.py:78-84 | an older message with the top outcome makes some order end with a boundary below the greatest timestamp |
| DecisionStore.ConvergenceExactly | src/ers/resolution_decision_store/services/decision_store_service.py:68-94 | delivery order and repetition are irrelevant exactly when the messages dated like the greatest one are the ones that carry its outcome |
| DecisionStore.RepeatedOutcomeLosesDate | src/ers/resolution_decision_store/services/decision_store_service.py:78-84 | three messages whose two orders end with different outcomes, because a short-circuited message does not raise the boundary |
| StoreHistory.PlacementsOnlyMoveForward | src/ers/resolution_decision_store/adapters/decision_repository.py:433-440 | in every interleaving, overlapping calls and insert races included: `created_at` never changes, a present `updated_at` exceeds it, a row's boundary rises exactly when a placement write on it was accepted, rejected writes change nothing, and no call ends in an operation failure |
| ClusterIndex.PendingIncrementsArePlaced | src/ers/resolution_decision_store/adapters/cluster_size_index.py:80-104 | increments still owed to a cluster never outnumber the decisions placed in it, so a counter cannot go negative in between |
| ClusterIndex.StoreStepKeepsIndex | src/ers/resolution_decision_store/services/decision_store_service.py:96-101 | each database step of a store call keeps: size equals decisions placed, plus decrements owed, minus increments owed, for every cluster |
| ClusterIndex.QuietAgreement | src/ers/resolution_decision_store/adapters/cluster_size_index.py:54-60 | with no call in flight the invariant says exactly that the projection is the count of the decisions, with no other rows |
| ClusterIndex.IndexFollowsDecisions | src/ers/resolution_decision_store/adapters/cluster_size_index.py:62-104 | in every interleaving in which no call starts on a mention while another on it may still write or shift: no size is negative, a zero row exists only while a call still owes its delete, and at rest the projection is exactly the count |
| Schedules.SoloStoreCall | src/ers/resolution_decision_store/services/decision_store_service.py:68-103 | a call left alone ends, whatever the database chooses, with the row, the sizes and the answer the method promises |
| IndexDrift.MovedCounts | src/ers/resolution_decision_store/services/decision_store_service.py:96-101 | one whole shift does to the count of all decisions what recounting them after the move would do |
| DriftLedger.StepLedger | src/ers/resolution_decision_store/adapters/cluster_size_index.py:68-104 | for every cluster, every step of every call moves the difference between its row and its decisions and owed updates by exactly that step's drift: a losing insert handed a row, an accepted update leaving another cluster than the one read, a decrement that finds no row, the delete of a row below zero |
| DriftLedger.DriftExactly | src/ers/resolution_decision_store/services/decision_store_service.py:68-103 | in every interleaving of any number of calls, overlapping or not: at rest no row is at or below zero, each row is its number of decisions plus its total drift, and the projection agrees exactly when the drifts of every cluster add up to zero |
| IndexDrift.OverlapDriftsExactly | src/ers/resolution_decision_store/services/decision_store_service.py:96-101 | two calls on one mention both read it before either wrote: in every interleaving of what follows, once all calls have ended the projection is wrong exactly when both writes were accepted and the first one changed the cluster, and then that cluster counts one too many |
| EarlyReaders.EarlyReaderDriftsExactly | src/ers/resolution_decision_store/adapters/cluster_size_index.py:68-104 | one call writes, another reads the row it wrote, the rest happens in any order: at rest the projection is wrong exactly when the second call took the decision out of a cluster holding no other before the first had counted it in |
| InsertRaces.InsertRaceExactly | src/ers/resolution_decision_store/adapters/decision_repository.py:433-443 | two calls found no row, one inserts it, the rest happens in any order: at rest the projection is wrong exactly when the other did not end stale, that is, when its insert was handed the row, or its update, which knows no cluster to take from, is dated after the insert |
| Schedules.SoloCuratorCall | src/ers/curation/services/user_action_service.py:155-157 | a curator call left alone counts its action when the slot is open and otherwise leaves no trace |
| ReviewProtocol.CuratorStepConserves | src/ers/curation/services/user_action_service.py:68-71 | each step of a curator call keeps: audit rows about a mention equal its counter plus the calls that saved and neither claimed nor undid |
| ReviewProtocol.StepKeepsReview | src/ers/resolution_decision_store/adapters/decision_repository.py:644-680 | every event of the machine keeps conservation, the meaning of the flag and the bound on fresh claims |
| ReviewProtocol.StepIsCounted | src/ers/resolution_decision_store/adapters/decision_repository.py:597-680 | the two counts of the history mean what their names say: at every step a fresh claim is the setting of a row's flag, and a placement write the creation of the row or a move of its boundary |
| ReviewProtocol.ReviewStateIsVouched | src/ers/curation/services/user_action_service.py:45-71 | in every run: audit rows minus counter is the number of calls in flight, hence zero at rest; a set flag has a surviving action dated after the boundary; fresh claims never outnumber placement writes |
| ReviewProtocol.CountedActionsStay | src/ers/curation/services/user_action_service.py:56-58 | a counted action, and any action no call of the run saved, is never removed from the log or altered |
| ReviewProtocol.HistoryIsAccountedFor | src/ers/curation/services/user_action_service.py:45-71 | in particular in every run from an empty store: equal counters and logs at rest, and no flag set without an action after the boundary |
| FlagExactness.FlagMeansReviewed | docs/api-docs/curation/index.adoc:2196 | if accepted placements postdate the logged actions, then in every state of every interleaving the flag is true exactly when a surviving action is dated after the boundary, at rest any logged action |
| FlagExactness.StepDecidesAgreement | src/ers/resolution_decision_store/adapters/decision_repository.py:644-680 | what each step does to the documented sentence: broken by a placement dated before a counted action and by a fallback count of an action dated after the boundary, made true by a placement dated after all counted actions and by a fresh claim, kept as it was by every other step |
| FlagExactness.FlagAgreesExactly | src/ers/resolution_decision_store/adapters/decision_repository.py:644-680 | at the end of every run flag and log agree exactly when the last step that breaks or repairs their agreement repairs it |
| FlagExactness.DocumentedThroughoutExactly | docs/api-docs/curation/index.adoc:2196 | the documented sentence holds in every state of a run exactly when it holds at the start and no step of the run breaks it |
| LateFallback.LateFallbackBreaksFlag | src/ers/resolution_decision_store/adapters/decision_repository.py:668-680 | a run from an empty store, its placements in order with the counted actions, that ends with everything at rest, the flag false and an action dated after the boundary |
| OneWinner.ExactlyOneWinner | src/ers/curation/services/user_action_service.py:45-71 | any number of concurrent curator calls dated after an unclaimed placement: every undisturbed schedule that ends them has one success, all others already curated, one new audit row, one more count |
| OneWinner.EnoughStepsEnd | src/ers/curation/services/user_action_service.py:60-62 | no curator call waits for another: four steps of its own end it in any interleaving |
| OneWinner.FairRaceHasOneWinner | src/ers/resolution_decision_store/adapters/decision_repository.py:597-619 | so every undisturbed schedule that gives each contender four steps has exactly one winner |
| Curation.UserActionService.RecordOrCompensate | src/ers/curation/services/user_action_service.py:45-71 | accepted with the row counted once, or already curated with the saved action gone and the row untouched, decided by the slot being open |
| Curation.UserActionService.RecordAccept | src/ers/curation/services/user_action_service.py:138-157 | the accept action, top placement selected, is logged and counted, or nothing changes |
| Curation.UserActionService.RecordReject | src/ers/curation/services/user_action_service.py:159-175 | the reject action, nothing selected, is logged and counted, or nothing changes |
| Curation.UserActionService.FindCandidate | src/ers/curation/domain/models.py:17-22 | the first candidate naming the cluster, or none exactly when no candidate names it |
| Curation.UserActionService.RecordAssign | src/ers/curation/services/user_action_service.py:177-197 | an unknown cluster is refused before anything is saved; otherwise the first candidate naming it is logged and counted, or nothing changes |
| ReviewBackfill.GroupByMention | src/scripts/backfill_previous_review_count.py:78-88 | one group per mention with the number of its actions and the latest of their dates |
| ReviewBackfill.CountActionsPerDecision | src/scripts/backfill_previous_review_count.py:64-103 | per decision id exactly its well-formed actions, counted, with their latest date; ids without actions are absent |
| ReviewBackfill.BuildOps | src/scripts/backfill_previous_review_count.py:106-149 | exactly one operation per counted decision |
| ReviewBackfill.RunBackfill | src/scripts/backfill_previous_review_count.py:152-199 | for every batch size, exactly the counted rows that exist get the count and the recomputed flag; a dry run writes nothing |
| ReviewBackfill.BackfillAgreesWithLiveWriters | src/scripts/backfill_previous_review_count.py:109-114 | run with no curator call in flight it writes every counter equal to the stored one, clears no set flag, and sets exactly the flags the log calls for |
| ClusterScripts.GroupByCluster | src/scripts/backfill_cluster_sizes.py:77-86 | one row per cluster in use with the number of decisions placed in it |
| ClusterScripts.AggregateClusterCounts | src/scripts/backfill_cluster_sizes.py:68-96 | the same without the unnamed cluster |
| ClusterScripts.BuildUpsertOps | src/scripts/backfill_cluster_sizes.py:129-152 | one absolute write per counted cluster, carrying its count |
| ClusterScripts.IssueBatches | src/scripts/backfill_cluster_sizes.py:187-203 | the batches concatenate to the operations, each once and in order, in the least number of non-empty batches |
| ClusterScripts.DeleteStaleEntries | src/scripts/backfill_cluster_sizes.py:99-126 | counts the rows without a live cluster and, unless dry, removes exactly those |
| ClusterScripts.SetThenSweep | src/scripts/backfill_cluster_sizes.py:187-212 | writing every counted cluster and dropping the others leaves the counts, whatever was there before |
| ClusterScripts.RunBackfill | src/scripts/backfill_cluster_sizes.py:155-212 | a real run leaves exactly the live counts, or everything as it was when there are none; a dry run changes nothing |
| ClusterScripts.ReadProjection | src/scripts/verify_cluster_sizes.py:84-100 | the stored rows without the unnamed one |
| ClusterScripts.Verify | src/scripts/verify_cluster_sizes.py:103-151 | true exactly when every named cluster's stored size, absent meaning zero, is its number of decisions |
| ClusterScripts.RepairExactly | src/scripts/backfill_cluster_sizes.py:172-174 | from any projection `_verify` returns true after a run exactly when some decision names a cluster or no row was off to begin with; a second run changes no size |
| ClusterScripts.LiveIndexNeedsNoRepair | src/scripts/verify_cluster_sizes.py:118-151 | after any run of the live writers without overlaps `_verify` returns true at rest, and a rebuild changes nothing unless a decision sits in the unnamed cluster |
| Statistics.OrderedListingRanks | src/ers/curation/adapters/statistics_repository.py:127-137 | indexing the sorted size list gives the order statistic of that rank, defined by counting smaller and not-larger rows |
| Statistics.RankIsUnique | src/ers/curation/adapters/statistics_repository.py:127-137 | a rank has one value, so the statistics do not depend on how ties were listed |
| Statistics.SortedRows | src/ers/curation/adapters/statistics_repository.py:127-128 | every row once, in non-decreasing order of size |
| Statistics.P95Index | src/ers/curation/adapters/statistics_repository.py:135-137 | the index is always in range and is 95 percent of n rounded down: the clamp to the last index is never needed |
| Statistics.LastRankIsMaximum | src/ers/curation/adapters/statistics_repository.py:104-107 | the last order statistic is an attained upper bound of all sizes |
| Statistics.Median | src/ers/curation/adapters/statistics_repository.py:130-133 | the mean of the two middle order statistics, which coincide for an odd number of rows |
| Statistics.GetClusterDistribution | src/ers/curation/adapters/statistics_repository.py:84-139 | average, median, 95th percentile, maximum and number of singletons of the projection; zeros when it is empty |
| Statistics.CountsSumUp | src/ers/resolution_decision_store/adapters/decision_repository.py:1115-1121 | cluster counts add up to the decisions placed in those clusters, none counted twice |
| Statistics.AverageClusterSize | src/ers/resolution_decision_store/adapters/decision_repository.py:1114-1126 | the number of decisions over the number of distinct clusters, zero without decisions |
| Statistics.AveragesAgree | src/ers/curation/adapters/statistics_repository.py:109-126 | when the projection agrees with the decisions: one row per distinct cluster, sizes adding up to the number of decisions, and the projection's average equal to the one computed from the decisions |
| Keyset.SortedListsAll | src/ers/resolution_decision_store/adapters/decision_repository.py:942-943 | the listing contains every row once, in order |
| Keyset.CursorAdvances | src/ers/commons/adapters/decision_repository.py:48-75 | for every listing, direction and null: what the next cursor reaches was reachable before and lies strictly beyond the last row kept, which it does not reach itself |
| Traversals.TraversalIsComplete | src/ers/resolution_decision_store/adapters/decision_repository.py:799-824 | from any point, following the cursor delivers exactly the rows left, in order, in the least number of pages |
| Traversals.FewerPagesAreTooFew | src/ers/resolution_decision_store/adapters/decision_repository.py:799-824 | fewer pages than the number counted cannot hold the rows |
| Traversals.FullTraversal | src/ers/resolution_decision_store/adapters/decision_repository.py:757-824 | from the first page, exactly the rows, once each, in sort order: both directions for fields never null, ascending for a nullable one |
| Traversals.DescendingNullableExactly | src/ers/commons/adapters/decision_repository.py:68-75 | descending over a nullable field what is delivered, in full: everything exactly when there is no null row or the rows with a value do not fill the first page, otherwise just the rows with a value |
| LivePaging.LiveKeysIncrease | src/ers/resolution_decision_store/adapters/decision_repository.py:1077-1091 | whatever is written between pages, the delivered keys strictly increase across them |
| LivePaging.DeltaPagingUnderWrites | src/ers/resolution_decision_store/adapters/decision_repository.py:1062-1093 | every delivered row, and every row in the listing that is not rewritten from the first page to the last, is delivered exactly once |
| LivePaging.SizePagesStayInOrder | src/ers/resolution_decision_store/adapters/decision_repository.py:997-1037 | cluster-size pages never repeat a row and stay in order across pages, in both directions |
| LivePaging.SizePagesCompleteExactly | src/ers/resolution_decision_store/adapters/decision_repository.py:810-822 | they deliver the whole listing exactly when at every page break the look-ahead row's id lies past the id of the last row kept |
| LivePaging.EqualSizeBreaksSkipNothing | src/ers/resolution_decision_store/adapters/decision_repository.py:1032-1037 | in particular nothing is skipped when every page break falls between rows of equal size |
| Listings.FindWithFilters | src/ers/resolution_decision_store/adapters/decision_repository.py:716-824 | the page of the matching rows in the chosen order, every row of a document whose stored fields satisfy each bound given and carrying the sort key asked for; the count is their number, zero in bulk-sync mode |
| Listings.FilteredPagesDeliverTheMatches | src/ers/resolution_decision_store/adapters/decision_repository.py:749-752 | the pages together deliver a document exactly when its stored fields satisfy every bound given, once, in order, as many as the count |
| Listings.OneFieldFilters | src/ers/resolution_decision_store/adapters/decision_repository.py:252-275 | each filter field alone admits exactly the documents whose stored field satisfies it, nulls and absent counters included; no filter admits all |
| Listings.FiltersIntersect | src/ers/resolution_decision_store/adapters/decision_repository.py:252-275 | a filter with several fields admits the intersection of what each admits alone |
| Listings.OrderingKeys | src/ers/resolution_decision_store/adapters/decision_repository.py:277-307 | each ordering sorts by the stored field it names, a cluster without a row counting as size zero, and does not change what is admitted; bulk sync defaults to `updated_at` forward, curation to `created_at` backward |
| Listings.FindActions | src/ers/curation/adapters/user_action_repository.py:92-119 | the page of the matching actions and their number |
| Listings.OneFieldActionFilters | src/ers/curation/adapters/user_action_repository.py:140-166 | each field of an action filter alone admits exactly the actions whose stored field satisfies it, and several admit the intersection |
| Listings.ActionPagesDeliverTheMatches | src/ers/curation/adapters/user_action_repository.py:92-119 | the pages together deliver the matching actions, each once, in order, as many as the count |
| Refresh.RequestRegistry.AdvanceSnapshot | src/ers/request_registry/services/request_registry_service.py:140-171 | the marker moves to the new time exactly when there is none yet or the new time is strictly later |
| Refresh.BulkRefreshCoordinator.EffectiveSize | src/ers/resolution_decision_store/services/decision_store_service.py:173-176 | the requested size, or the default when none is requested, cut at the maximum |
| Refresh.BulkRefreshCoordinator.RefreshBulk | src/ers/resolution_coordinator/services/bulk_refresh_coordinator_service.py:36-76 | the marker of the source moves, to the clock, exactly when a last page is handed out, and no other marker moves; every row handed out is that of a document of the source, carries its `updated_at` and is dated after the old marker; a page is full unless it is the last; and the call is one refresh step |
| Refresh.CycleDeliversTheDelta | src/ers/resolution_coordinator/services/bulk_refresh_coordinator_service.py:63-76 | over a fixed store with a rising clock one cycle delivers a document exactly when it is of the source, was updated at least once and is dated after the old marker, each once, in the least number of pages; the marker moves once, strictly forward |
| Refresh.NextCycleCatchesExactly | src/ers/resolution_coordinator/services/bulk_refresh_coordinator_service.py:73-74 | whatever was rewritten since, the next cycle delivers a row exactly when it is dated after the clock of the previous last page; it is empty when none is |
| Refresh.RefreshUnderWrites | src/ers/resolution_decision_store/adapters/decision_repository.py:1062-1093 | rows of the source left alone from the first page to the last are delivered exactly once while other writers run |
| Resolution.StepKeepsInv | src/ers/resolution_coordinator/services/async_resolution_waiter.py:40-65 | every step keeps: set events and doorbells under way exist only for keys with a stored decision, and a held event is the one of its call's key |
| Resolution.BellsMeanDecisions | src/ers/ere_result_integrator/services/outcome_integration_service.py:93-122 | in every run with lossy doorbells: a set event or a doorbell under way implies a stored decision, and a call that has left its wait because of its event reads one and answers canonically when the store answers |
| Resolution.StoredBeforeFinalRead | src/ers/resolution_coordinator/services/resolution_coordinator_service.py:208-249 | once a decision is stored, a call that has not done its final read answers canonically or fails, whichever doorbells are lost |
| Doorbells.WokenCallAnswers | src/ers/resolution_coordinator/services/resolution_coordinator_service.py:226-233 | a call waiting for an event that is set answers the stored decision canonically in two steps of its own, without a time-out |
| Doorbells.RungCallAnswers | src/ers/ere_result_integrator/services/outcome_integration_service.py:93-122 | from the response to the answer: an outcome call that runs where a call waits, or that nobody waits for there and whose publication reaches it, makes that call answer the row just stored, canonically and without a time-out |
| Doorbells.UnreachedCallIsNotRung | src/ers/ers_rest_api/entrypoints/api/app.py:82-101 | and otherwise it is not rung: when somebody waits where the response is integrated, a call waiting for the same mention on another instance gets neither its event set nor a doorbell |
| Doorbells.EveryDoorIsKept | src/ers/resolution_coordinator/services/async_resolution_waiter.py:26-65 | in every run each call holds the event its own instance keeps for its key, while it drafts after a wait as well; no two keys or instances share an event; and only registered mentions have decisions |
| Doorbells.StepRegisters | src/ers/resolution_coordinator/services/resolution_coordinator_service.py:149-160 | a mention becomes registered exactly when a resolve call goes on from its registration, a failing one registers nothing |
| Doorbells.SoloOutcomeCall | src/ers/ere_result_integrator/services/outcome_integration_service.py:51-129 | an outcome call left alone ends, whatever the choices, rejected without a trace or with the delivered row and one ring: the own instance if it has an event, the channel otherwise |
| Doorbells.SoloResolveCall | src/ers/resolution_coordinator/services/resolution_coordinator_service.py:123-249 | a resolve call left alone with a time budget answers a stored decision at once, and otherwise, after its time-out, stores and answers its own draft |
| Doorbells.SoloDraftingCall | src/ers/resolution_coordinator/services/resolution_coordinator_service.py:123-249 | without a time budget the draft follows the first read directly |
| Doorbells.EngineWritesItsResponse | src/ers/ere_result_integrator/services/outcome_integration_service.py:88-101 | in every interleaving a row written by an outcome call has the first candidate of its response, the leading alternatives that fit, its mention and its date |
| Doorbells.ResolveWritesItsDraft | src/ers/resolution_coordinator/services/resolution_coordinator_service.py:309-321 | in every interleaving a row written by a resolve call is placed in the derived identifier with zero scores, with its mention and the clock of its draft |
| Drafts.DraftReplacesExactly | src/ers/resolution_coordinator/services/resolution_coordinator_service.py:309-334 | a draft that meets a row, at whatever step its store call is: it replaces the row exactly when its path updates, its clock is past the boundary and a comparing path finds a difference; the answer is the row then stored, called provisional exactly when it was replaced, was the draft already, or was handed over by a losing insert |
| Verdicts.ProvisionalMeansDraftedOrHanded | src/ers/resolution_coordinator/services/resolution_coordinator_service.py:316-323 | in every run a call answers provisionally with anything but its own draft exactly when its insert met that row and was handed it |
| Verdicts.EngineRowCalledProvisional | src/ers/resolution_coordinator/services/resolution_coordinator_service.py:316-322 | a run from an empty store in which a call answers an engine outcome as provisional without having drafted anything |
| Verdicts.CanonicalMeansReadOrRejected | src/ers/resolution_coordinator/services/resolution_coordinator_service.py:323-334 | in every run an answered decision is called canonical exactly when the call never drafted or a row rejected its draft, whoever wrote that row |
| Verdicts.OtherDraftCalledCanonical | src/ers/resolution_coordinator/services/resolution_coordinator_service.py:323-334 | a run without any engine outcome in which a call answers another call's draft as canonical |
| Resolution.DraftsAgree | src/ers/resolution_coordinator/services/resolution_coordinator_service.py:309-322 | without engine outcomes, any number of overlapping resolve calls store and return the derived identifier of their key, in every state |
| Notification.AsyncResolutionWaiter.GetOrCreate | src/ers/resolution_coordinator/services/async_resolution_waiter.py:26-44 | callers of one key share one event; a new one is not set |
| Notification.AsyncResolutionWaiter.Notify | src/ers/resolution_coordinator/services/async_resolution_waiter.py:46-65 | sets the event of the key and no other, and says whether there was one |
| Notification.OutcomeIntegrationService.OnOutcomeStored | src/ers/ers_rest_api/entrypoints/api/app.py:82-101 | local first: publishes exactly when no local event exists, and raises exactly when that publication fails |
| Notification.OutcomeIntegrationService.IntegrateOutcome | src/ers/ere_result_integrator/services/outcome_integration_service.py:51-129 | a response without timestamp, zone or candidates, or an unregistered one, changes nothing; any other places the mention in its first candidate, with the leading alternatives that fit and its own date, unless the row is the same or dated no earlier, and is followed by exactly one doorbell, stale ones included; a failing channel loses the bell, not the outcome |
| Coordinator.ResolutionCoordinatorService.IssueProvisional | src/ers/resolution_coordinator/services/resolution_coordinator_service.py:293-338 | the answer is always the row now stored, canonical exactly when a different placement dated no earlier was already there; it fails exactly when the store, or the read of that placement, does not answer |
| Coordinator.ResolutionCoordinatorService.ResolveSingle | src/ers/resolution_coordinator/services/resolution_coordinator_service.py:123-249 | a stored decision is the answer, before publishing or at the read after the wait, whether or not the bell rang; only without one is a draft issued, over whatever the others stored in between; every failing access fails the call and changes no decision |
| Drafts.LateReadAnswers | src/ers/resolution_coordinator/services/resolution_coordinator_service.py:240-249 | the interleaved machine, left alone from the final read on, stores and answers what the method does |

## Left out

- Routers, exception handlers, wiring, authentication, tracing, configuration parsing: no state machine worth proving.
- The MongoDB and Redis clients, indexes, reconnect loops: only the atomic meaning of each update and the possible loss of a doorbell are kept. A backend failure is a step that writes nothing; a write that succeeds while its acknowledgement is lost is not modelled.
- SHA-256, base64url, JSON and ISO date text: library calls, see the assumptions.
- Floating point: `int(0.95 * n)` is taken over the reals, so a rounding of the product is not covered.
- RDF parsing, content hashes, idempotency conflicts, the text of registrations: registration either succeeds or fails.
- `resolve_bulk`: a gather of independent `resolve_single` calls, which the machine already interleaves; its own time budget is not modelled.
- `updated_at` of cluster-size rows and of the lookup record: written, never read by what is modelled.
- Curator previews, decision summaries, registry and curation statistics other than cluster sizes, `find_mention_ids_by_cluster`, `has_current_action`: single reads that no write depends on.
- `curation` listing by `decision_id`: a lookup that fills in the mention before the modelled query.
- Legacy documents: rows without a usable cluster id are represented by the empty id only; `max_action_at` is always a date.
- Concurrent refresh cycles of one source: the code expects a single caller per source, and so does `Refresh`.
- ReviewBackfill.BackfillAgreesWithLiveWriters: speaks of a run while no curator call is in flight; the script offers nothing when one is, since it overwrites counters absolutely.
- ClusterIndex.IndexFollowsDecisions: claims nothing for calls that start on a mention while another on it may still write or shift; `DriftLedger.DriftExactly` speaks of those as well, in terms of what their steps did.
- IndexDrift.OverlapDriftsExactly: the store calls other than the two are at rest and none starts meanwhile, so that a disagreement can be put down to the two.
- EarlyReaders.EarlyReaderDriftsExactly: likewise for its two calls.
- InsertRaces.InsertRaceExactly: likewise for its two calls.
- Coordinator.ResolutionCoordinatorService.ResolveSingle: takes the other writers' work in at the wait and just before the draft; interference inside the draft's own store call is in `Resolution` and `Drafts`, whose steps are functions because other instances write between them.
