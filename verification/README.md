# Verified model of the Bedrock quota enforcer

The system meters the tokens that IAM roles of a team spend on Bedrock models, blocks a team's roles for a model
when the team's daily quota is used up, and lifts the block at midnight UTC. This project models its stateful and
algorithmic parts in Dafny and proves what whole runs of them keep. `dafny verify dfyconfig.toml` checks it.

Code that changes tables in place is modelled by classes whose methods update their fields in the loops and
branches of the source (`Enforcer`, `Reconciler`, `TeamRoleCache`, `UsageCollector`, `MantleUsageWriter`,
`AuditTable`, `ModelRegistry`, `Operation`). The contract of a method gives its results and the tables afterwards,
mostly as a function of the tables before; the theorems about runs are about those functions.

| File | What it holds |
|---|---|
| `Domain`, `Sequences`, `Sums` | shared names; pages and repetition-free lists; sums that do not depend on an order |
| `Enforcement`, `Enforcer` | quotas, blocked rows, role policies, audit log and notifications; what one trigger does |
| `DailyReset` | the rows a reset touches; a pair over several resets |
| `Runs` | any sequence of triggers, invocations that die among them; when deny policies are exactly where a row is BLOCKED |
| `Evidence` | when the audit log replays to the attached policies, and when "restored" is true |
| `Counterexamples` | short runs from empty tables into the states in which they are not |
| `Overlaps` | a usage change with other triggers between its reads and its writes |
| `CrashRetry` | a stream batch cut off anywhere and handled again, on the same day or another |
| `Reconcile`, `Reconciler` | the role sweep, its queue protocol and the worker |
| `RoleCache` | durable mappings and expiring lookups |
| `UsageTable`, `UsageCollector` | exactly-once accounting of the per-request pipeline |
| `Registry`, `MantleMetrics`, `MantleUsage` | the metrics pipeline: registry, queries, re-assembly, absolute writes |
| `CurUsageType`, `TeamCost` | the usage-type grammar and the cost aggregation |
| `AuditLog` | the key range of an audit query |
| `Retry` | bounded retries and their delays |

The world outside is a parameter of each step: an IAM call fails or not (`Visit.failing`, `Faults`), a query returns
any ordering and paging of the matching rows, and the clock is an argument. A role call that fails after its retries
changes nothing, and removing an absent policy succeeds (`src/clients/iamClient.ts:62-80`).

## What the code does not keep

Where the documentation promises more than the code does, the code is modelled, the exact condition is proved, and a
reachable case is given.

- A reset is documented to retry a failing pair indefinitely (`src/dailyReset.ts:150-152`). The query asks for the
  previous day only (`src/dailyReset.ts:251-254`), so retries stop when the day is over:
  `RetriedUntilFailuresRunOut`, `NeverRetriedOnOtherDays`; a run: `PendingRowIsStuck`.
- Removal after a config change goes by the endpoint of the event, not of the row (`src/quotaEnforcer.ts:423`). It can
  clear the row, announce "restored", and leave the role denied, against `src/quotaEnforcer.ts:451-455`:
  `StepIsHonestIff`, `EvaluateKeepsExactIff`; a run: `FalseRestoreIsReachable`. A policy that retagging has left behind
  makes the announcement false even when every pair has one endpoint: `FalseRestoreAfterRetagging`.
- A stream batch that dies between an IAM call and the row write (`src/quotaEnforcer.ts:346-373`) is put right by a
  retry of the same day: `CrashAndRetryIsHarmless`. Each retry reads the clock anew and skips records of other days
  (`src/quotaEnforcer.ts:504-505`, `:528`), so after midnight the policy stays without a row, and no reset lifts it:
  `CutIsExactIff`, `RetryIsExactIff`; a case: `CutAcrossMidnightStrands`.
- A tagged role is documented to be enforceable the moment it is tagged (`src/tagRoleHandler.ts:187-191`). When the
  tagging falls between the reads and the row write of a block or a removal, the role is left out: `LateKeepsExactIff`,
  `TaggingDuringBreachIff`, `TaggingDuringRemovalIff`; cases: `TaggedDuringBlock`, `TaggedDuringRemoval`.
- Tagging a role into another team leaves the old team's policies on it: `TaggingKeepsExactIff`; a run:
  `RetaggedRoleStaysDenied`.
- A cache row written without attaching policies, as `resolveTeam`, the admin mapping and the sweep do, leaves a
  blocked team's role undenied, and a role that leaves the mapping stays denied: `RemapKeepsExactIff`,
  `UnmappedKeepsItsDenies`; runs: `CachedRoleIsNotDenied`, `UnmappedRoleStaysDenied`.
- An override of a pair that has no row announces "restored" all the same (`src/dailyReset.ts:287-299`), which is false
  exactly when the team carries a policy under the metrics endpoint: `OverrideIsHonestIff`; a run:
  `OverrideAnnouncesFalsely`.
- When IAM fails, an expired lookup row is answered however old it is (`src/teamRoleCache.ts:154-159`):
  `StaleIffIamFails`; a case: `StaleForever`.
- Two projects of one team overwrite each other's rows: `RecordedPlusLost` measures what is lost, and
  `RowsAddUpIffNoneShared` says when nothing is; a case: `SharedRowLosesTokens`.
- An entry whose timestamp is no date is not skipped: its error ends the handling of the whole event
  (`src/usageCollector.ts:139-141`): `HandleEvent`, `StopsAtUnreadable`; a case: `UndatedEntryHidesTheRest`.
- A tiered usage type of a model whose name ends in `-mantle` is read as a metrics usage type, and a usage type that
  begins with a cache marker falls through to the later patterns: `ReadsBackIffReadable`, `MantleNamesAreMisread`.
- Names with a vertical bar can share a key of the cost aggregation: `CollideIff`, `NoCollisionsIff`; a case:
  `BarsCollide`.

## Model

| member | source | states |
|---|---|---|
| Enforcer.Enforcer.AttachDenyPolicy | src/quotaEnforcer.ts:219-232 | a successful call adds exactly the policy of this role, model and endpoint; a failed one changes nothing |
| Enforcer.Enforcer.DeleteDenyPolicy | src/clients/iamClient.ts:62-80 | a successful call leaves exactly this policy absent, whether it was there or not |
| Enforcer.Enforcer.EvaluateUsageAggregationChange | src/quotaEnforcer.ts:317-378 | all tables afterwards, for any quota, row and failing calls; a pair without a row is blocked if and only if it has a quota that is not 0 and is reached, and a BLOCKED one is lifted, when no call fails, if and only if it is not |
| Enforcement.BlocksAtTheQuota | src/quotaEnforcer.ts:329-373 | without a row: blocked exactly when quota and total say so, with the day and endpoint of the change, and no other row changes |
| Enforcement.LiftsBelowTheQuota | src/quotaEnforcer.ts:402-464 | a row goes exactly when it is BLOCKED, quota and total no longer block, and no call fails; otherwise all rows stay |
| Enforcement.BlockIsTold | src/quotaEnforcer.ts:344-378 | who is denied by a block, one announcement, and one log entry for each role with its outcome, the total and the quota |
| Enforcement.RemovalIsTold | src/quotaEnforcer.ts:416-463 | who is freed by a removal, an announcement unless a call fails, and one log entry for each role |
| Enforcement.OtherwiseNothing | src/quotaEnforcer.ts:329-342 | a change that neither blocks nor lifts does nothing |
| Enforcer.Enforcer.RemoveDenyForConfigChange | src/quotaEnforcer.ts:402-464 | ignores rows that are absent or PENDING_RESET; deletes and announces only without a failure |
| Enforcer.Enforcer.VisitForAttach | src/quotaEnforcer.ts:346-371 | exactly the reached roles get the policy, and each role is logged once with its outcome |
| Enforcer.Enforcer.VisitForRemoval | src/dailyReset.ts:164-197 | the failure flag is exact, only reached roles lose the policy, and each role is logged once |
| Enforcer.Enforcer.HandleUsageAggregationStreamEvent | src/quotaEnforcer.ts:500-543 | only well-formed inserts and modifications of the current day act, in order; what the current day is, `BatchNext` says |
| Enforcement.BatchNext | src/quotaEnforcer.ts:507-542 | a record acts if and only if it is an insert or a modification with a running total of the UTC day, of 86,400,000 milliseconds, in which the instant lies |
| Domain.DaysOfInstant | src/dailyReset.ts:82-86 | which instants lie on a day, and on the day after it |
| Enforcer.Enforcer.ResetBlockedStatePair | src/dailyReset.ts:154-231 | a failure rewrites the row as PENDING_RESET with the pair's day and endpoint; otherwise it is deleted and announced |
| Enforcer.Enforcer.QueryPairsByStatusDay | src/dailyReset.ts:95-125 | over any paging, each row of the status day once, with its own day and endpoint, and no other row |
| Enforcer.Enforcer.RunDailyReset | src/dailyReset.ts:246-261 | both index queries are answered from the tables before, then each pair is reset with its own visit; it resets the day before the one in which the instant lies |
| Enforcer.Enforcer.RemoveDenyPolicy | src/dailyReset.ts:287-299 | the override works on the row's own day and endpoint, else on today and the runtime endpoint |
| Enforcement.OverrideIsTold | src/dailyReset.ts:154-299 | the row, the announcement, the log and the policies after an override, with the current day for a pair without a row |
| Enforcer.Enforcer.HandleTagRoleEvent | src/tagRoleHandler.ts:170-216 | other events, and tags without a team, do nothing; otherwise the mapping is written first and policies follow, and an error is thrown exactly when the call for some blocked model fails |
| Enforcer.Enforcer.ListBlockedModelsForTeam | src/tagRoleHandler.ts:106-132 | over any paging, exactly the team's BLOCKED models with their endpoints |
| Enforcer.Enforcer.AttachAll | src/tagRoleHandler.ts:199-213 | policies are attached up to the first failing call |
| Enforcement.FirstFailure | src/tagRoleHandler.ts:201-213 | the models before the index are attached, the one at it fails |
| DailyReset.DueArePairs | src/dailyReset.ts:251-256 | the two answers together hold each due row once, and only due rows |
| DailyReset.DueIsListed | src/dailyReset.ts:246-261 | every row of the previous day, BLOCKED or PENDING_RESET, is among the pairs |
| DailyReset.ResetAllRows | src/dailyReset.ts:199-225 | resetting a list of pairs settles each of their rows by that pair's own failures and leaves all others |
| DailyReset.ResetAllDenies | src/dailyReset.ts:162-173 | a policy survives exactly when no pair's successful call is about its role, endpoint and model |
| DailyReset.TouchesExactlyTheDueRows | src/dailyReset.ts:246-261 | one reset changes the previous day's rows and no other, lifts exactly their policies on reached roles, announces each cleared pair once, and keeps statusDay in step |
| DailyReset.ResetsTheDayBefore | src/dailyReset.ts:246-261 | a reset at an instant of one UTC day deletes the rows of the day before, or keeps them as PENDING_RESET where a call fails, lifts exactly their policies on reached roles, and leaves all other rows and policies |
| DailyReset.RetriedUntilFailuresRunOut | src/dailyReset.ts:199-216 | over any number of resets of one day a pair survives exactly while each has a failure, as PENDING_RESET with its first day and endpoint; a role keeps the policy exactly when no reset up to then reached it |
| DailyReset.StaysCleared | src/dailyReset.ts:219-225 | a cleared pair stays cleared under later resets |
| DailyReset.NeverReattached | src/dailyReset.ts:154-231 | no sequence of resets attaches a policy |
| DailyReset.NeverRetriedOnOtherDays | src/dailyReset.ts:251-254 | resets of any other day leave the row and its policies as they are |
| Runs.StepKeepsCoveredIff | src/quotaEnforcer.ts:317-464 | whatever IAM calls fail, a trigger keeps every policy covered by a row of its endpoint, except exactly when it clears a row under the wrong endpoint, dies between an attached policy and the row, or a mapping change takes the row away |
| Runs.RunIsExactIff | src/quotaEnforcer.ts:317-464 | over any run with failures, invocations that die, mixed endpoints, retagging and mapping changes, policies sit exactly on the roles of BLOCKED rows in all states if and only if each step meets its own condition |
| Runs.StepKeepsExactIff | src/quotaEnforcer.ts:317-464 | the condition of each kind of step, which can be checked before it |
| Runs.DenyIffBlocked | src/quotaEnforcer.ts:317-378 | after a run from empty tables without failing calls, retagging or a second endpoint, a mapped role carries a model's policy if and only if its team's row is BLOCKED |
| Runs.EvaluateKeepsExactIff | src/quotaEnforcer.ts:317-464 | the exact failures and endpoints under which one usage change keeps that correspondence |
| Runs.MidnightKeepsExactIff | src/dailyReset.ts:246-261 | a reset keeps that correspondence if and only if no due BLOCKED row meets a failing call |
| Runs.ManualKeepsExactIff | src/dailyReset.ts:287-299 | an override keeps it if and only if no call fails on a BLOCKED row |
| Runs.CutKeepsExactIff | src/quotaEnforcer.ts:346-373 | a usage change that dies keeps it if and only if it dies after the row write and would have kept it, or no call has succeeded that attaches a policy, or removes one under the row's endpoint |
| Runs.ManualCutKeepsExactIff | src/dailyReset.ts:162-225 | the same for an override that dies |
| Runs.TaggingKeepsExactIff | src/tagRoleHandler.ts:192-213 | under any failing calls, tagging keeps it if and only if whatever blocks the role's old team blocks the new one, and the models left unattached already blocked the old one |
| Runs.RemapKeepsExactIff | src/teamRoleCache.ts:222-266 | when a cache row that is written without attaching, or lost, keeps it |
| Runs.UnmappedKeepsItsDenies | src/dailyReset.ts:159-164 | while a role is unmapped, no run of other triggers attaches or lifts a policy on it |
| Runs.BatchIsARun | src/quotaEnforcer.ts:507-542 | a stream batch is the run of its current-day records, so the theorems on runs hold for batches |
| Runs.ResetIsARun | src/dailyReset.ts:246-261 | a reset is the run of the overrides of its pairs |
| Evidence.ReplayVisit | src/quotaEnforcer.ts:346-371 | replaying the entries of one visit adds or removes exactly the roles reached |
| Evidence.RemovalKeepsLogIff | src/quotaEnforcer.ts:420-449 | a removal visit keeps log and policies in agreement if and only if no successful call misses a policy under the other endpoint |
| Evidence.TaggingKeepsLogIff | src/tagRoleHandler.ts:201-213 | tagging does if and only if it attaches no policy that the log does not know |
| Evidence.MidnightKeepsLogIff | src/dailyReset.ts:154-231 | a reset does if and only if no successful call for a due row misses a policy under the other endpoint |
| Evidence.StepKeepsLogIff | src/quotaEnforcer.ts:317-464 | for any tables, the condition for each kind of step, under any failures and wherever an invocation dies |
| Evidence.AuditReplay | src/quotaEnforcer.ts:346-371 | over any run, folding the audit log gives exactly the attached role and model pairs in all states if and only if each step meets its condition |
| Evidence.StepIsHonestIff | src/quotaEnforcer.ts:451-463 | for any tables, a step tells the truth if and only if it does not announce "restored" after calls that all succeeded and missed a policy under the other endpoint, and does not delete a row and die before the announcement |
| Evidence.OverrideIsHonestIff | src/dailyReset.ts:219-299 | an override announces falsely if and only if its calls all succeed and miss a policy under the other endpoint than the row's, or the runtime endpoint without a row |
| Evidence.MidnightIsHonestIff | src/dailyReset.ts:219-261 | a reset does if and only if this happens for one of its due rows |
| Evidence.NoFalseRestore | src/dailyReset.ts:199-231 | over any run, all announcements are true, every deleted row is announced and surviving rows keep day and endpoint if and only if no step misleads; statusDay stays in step |
| Evidence.OneEndpointIsEnough | src/quotaEnforcer.ts:423 | in a run in which every policy keeps its row and no invocation dies, usage of each pair from one endpoint rules out false announcements, and missing entries except by tagging |
| Counterexamples.FalseRestoreIsReachable | src/quotaEnforcer.ts:418-463 | four steps from empty tables: no row, "restored" published, and the role still denied |
| Counterexamples.PendingRowIsStuck | src/dailyReset.ts:251-254 | a run after which no reset of a later day lifts the policy |
| Counterexamples.RetaggedRoleStaysDenied | src/tagRoleHandler.ts:192-213 | a run after which a retagged role carries the old team's policy |
| Counterexamples.CachedRoleIsNotDenied | src/teamRoleCache.ts:222-242 | a run after which a role of a blocked team is not denied |
| Counterexamples.UnmappedRoleStaysDenied | src/teamRoleCache.ts:258-266 | a run after which an unmapped role stays denied though its pair was announced as restored |
| Counterexamples.FalseRestoreAfterRetagging | src/quotaEnforcer.ts:418-463 | each pair used from one endpoint and no call failing: "restored" is published for the new team of a retagged role that still carries a policy for the model |
| Counterexamples.OverrideAnnouncesFalsely | src/dailyReset.ts:287-299 | an override of a pair without a row announces "restored" while the team's role is denied |
| Counterexamples.CutAcrossMidnightStrands | src/quotaEnforcer.ts:344-373 | a pass that dies before the row write and is completed on another day leaves a policy without a row, which no reset lifts; a complete pass alone does nothing |
| Counterexamples.TaggedDuringBlock | src/tagRoleHandler.ts:187-213 | a role tagged between the listing and the row write of a block is left without a policy |
| Counterexamples.TaggedDuringRemoval | src/tagRoleHandler.ts:187-213 | a role tagged while a block is lifted is denied without a row, after "restored" is published |
| Overlaps.LateOfNothing | src/quotaEnforcer.ts:317-464 | a usage change that nothing overlaps is the step of the runs |
| Overlaps.LateKeepsExactIff | src/quotaEnforcer.ts:317-464 | whatever other triggers have done between the reads of a usage change and its writes, and however old its role listing is, the condition under which the end is exact |
| Overlaps.LateLog | src/quotaEnforcer.ts:346-371 | the log quotes the quota by which a late change was decided |
| Overlaps.TaggingDuringBreachIff | src/tagRoleHandler.ts:187-213 | a tagging during a block is harmless if and only if the role was listed and stays in the team, or was not listed and goes elsewhere, or goes to a team that the same policy blocks |
| Overlaps.TaggingDuringRemovalIff | src/tagRoleHandler.ts:187-213 | a tagging during a removal is harmless if and only if it does not change whether the role is in the team |
| CrashRetry.DecisionsLeadToOutcome | src/quotaEnforcer.ts:329-378 | where a key's records lead without walking through them: the last one decides, PENDING_RESET rows stay |
| CrashRetry.InterruptionForgotten | src/quotaEnforcer.ts:346-373 | deciding some records and part of the next does not change where all of them lead |
| CrashRetry.BatchView | src/quotaEnforcer.ts:500-543 | a pass does to each key's row and policies what the key's own records decide, and nothing to other policies |
| CrashRetry.CutIsForgotten | src/quotaEnforcer.ts:500-543 | a complete pass after a cut one of the same day ends where it would have without the cut |
| CrashRetry.CrashAndRetryIsHarmless | src/quotaEnforcer.ts:500-543 | any number of passes of one day cut between any two writes and then a complete one on that day leave the rows and policies of one complete pass, from any tables |
| CrashRetry.CutIsExactIff | src/quotaEnforcer.ts:344-373 | from exact tables, a pass that dies leaves exact ones if and only if it does not die between the first call of a block, or of a removal, and the row write |
| CrashRetry.PassRepairsIff | src/quotaEnforcer.ts:528 | a complete pass on any day leaves a key consistent if and only if it was, or one of the key's records of that day repairs it |
| CrashRetry.RetryIsExactIff | src/quotaEnforcer.ts:500-543 | passes that die anywhere, each on a day of its own, and a complete pass on whatever day: the end is exact if and only if for each key what the cuts have left is consistent or is repaired |
| CrashRetry.LastRecordDecides | src/quotaEnforcer.ts:329-341 | after a complete pass a key is blocked if and only if its last current-day record breaches |
| Reconcile.SweptTwice | src/reconciliation.ts:138-169 | sweeping two sets of roles in turn is sweeping their union |
| Reconcile.SweptFollowsTags | src/reconciliation.ts:143-165 | after a sweep the entry of each swept role is its tag if that is a team and absent if not; other entries stay |
| Reconcile.ReportIsExact | src/reconciliation.ts:143-165 | the report lists exactly the roles tagged with a team, each with its tag, in the order of the listing |
| Reconcile.ReportCountsTagged | src/reconciliation.ts:143-165 | its length is the number of listed roles that are tagged with a team |
| Reconcile.PagesDone | src/reconciliation.ts:183-186 | one call does all pages that are left, or as many as its budget, but at least one |
| Reconciler.Reconciler.SweepRole | src/reconciliation.ts:148-165 | a role with a team is upserted, one without is deleted, others are untouched |
| Reconciler.Reconciler.SweepBatch | src/reconciliation.ts:138-169 | a batch fails when one lookup does; roles settled until then stay settled, and no other entry changes |
| Reconciler.Reconciler.SweepPage | src/reconciliation.ts:136-175 | batches cover the page once; the report lists the roles with a team, in order |
| Reconciler.Reconciler.ReconcileTeamRoleCache | src/reconciliation.ts:110-189 | the pages from the marker within the budget are swept: their entries are what the tags say, and the report lists the tagged roles with their tags; next marker and page count are exact; it is interrupted if and only if a page of the call cannot be listed or a lookup on it fails |
| Reconciler.Reconciler.StartReconcile | src/adminApi.ts:322-326 | a running job row, then the first message unless sending it fails |
| Reconciler.Reconciler.UpdateJob | src/reconcileJobStore.ts:106-176 | counters are added to, a status is overwritten when given, and an expired row comes back without one |
| Reconciler.Reconciler.SweepOnePage | src/reconcileWorker.ts:75-106 | page, counters, next message or completion, in this order; it throws if and only if one of these calls fails, and the first that does decides how far it gets |
| Reconciler.Reconciler.ProcessReconcileMessage | src/reconcileWorker.ts:66-112 | it throws if and only if a call fails, and then marks the job failed; without failures it is a full delivery of the protocol |
| ReconcileProtocol.HandlingKeepsSafe | src/reconcileWorker.ts:66-112 | however far one handling gets, a queued marker for a page still means that the pages before it are swept |
| ReconcileProtocol.RunKeepsSafe | src/reconcileWorker.ts:66-112 | so does every run with duplicated, cut off and lost messages and several jobs |
| ReconcileProtocol.CompleteMeansSettled | src/reconcileWorker.ts:105-111 | in every such run, a complete job means that each listed role's entry is the team that its IAM tag names, and absent without one; entries of unlisted roles never change |
| ReconcileProtocol.OnlyStepIsNextPage | src/reconcileWorker.ts:91-103 | without failures exactly one message can be delivered, and it does its page |
| ReconcileProtocol.ChainEnds | src/reconcileWorker.ts:86-106 | the chain ends after the last page |
| ReconcileProtocol.ChainInOrder | src/reconcileWorker.ts:86-106 | and visits each page once, in order |
| ReconcileProtocol.ChainRefinesSingleSweep | src/reconcileWorker.ts:75-106 | the chain leaves the cache of one unbounded sweep, with the entries that the tags say, counts every page and every tagged role, and empties the queue |
| ReconcileProtocol.StarterBeginsChain | src/adminApi.ts:322-326 | the starter puts the job, the queue and the cache where the chain begins |
| RoleCache.TeamRoleCache.ResolveTeam | src/teamRoleCache.ts:131-176 | the answer and the table afterwards: fresh row, IAM, last known row, or unmapped |
| RoleCache.FreshRowAnswers | src/teamRoleCache.ts:136-143 | a durable or unexpired row answers a resolution that is not forced, without a lookup |
| RoleCache.IamAnswers | src/teamRoleCache.ts:144-176 | with force, or without such a row, IAM's team is answered and kept for 900 seconds |
| RoleCache.NobodyAnswers | src/teamRoleCache.ts:154-159 | when IAM fails, the last known team stands in, or unmapped, and nothing is written |
| RoleCache.TeamRoleCache.CacheRoleTeam | src/teamRoleCache.ts:222-242 | writes a row without expiry |
| RoleCache.CachedIsDurable | src/teamRoleCache.ts:214-242 | a written mapping has no expiry and is listed for its team at once; other rows stay |
| RoleCache.TeamRoleCache.DeleteRoleTeam | src/teamRoleCache.ts:258-266 | removes the row, present or not |
| RoleCache.DeletedIsUnlisted | src/teamRoleCache.ts:258-266 | a deleted role is listed for no team; other rows stay |
| RoleCache.TeamRoleCache.ListRolesForTeam | src/teamRoleCache.ts:285-311 | over any paging, exactly the roles mapped to the team |
| RoleCache.MappingIsDurable | src/teamRoleCache.ts:222-242 | a mapping outlives every run of lookups, ticks and reaping that does not rewrite it, stays listed, and is served without IAM |
| RoleCache.FreshnessWindow | src/teamRoleCache.ts:104-112 | despite whole seconds, a lookup row serves for 899 seconds and never for 900 |
| RoleCache.RunIsTraced | src/teamRoleCache.ts:131-176 | after every run, each lookup row is an IAM read of the past |
| RoleCache.ServedLookupsAreRecent | src/teamRoleCache.ts:131-176 | after any run, for any resolution: a team answered from a lookup row is an IAM read less than 900,000 milliseconds old, unless the row's time is over and IAM does not answer |
| RoleCache.StaleIffIamFails | src/teamRoleCache.ts:154-159 | a stale team is answered if and only if IAM does not answer and the row is a lookup whose time is over |
| RoleCache.StaleForever | src/teamRoleCache.ts:154-159 | one lookup and IAM failing ever after: the team is answered at any age |
| UsageCollector.UsageCollector.ProcessInvocationLogEntry | src/usageCollector.ts:239-325 | dedup record and addition together or not at all, the addition to the row of the role's team, the model and the day; a repeated request is reported as duplicate |
| UsageCollector.UsageCollector.HandleObject | src/lambdaEntrypoints/usageCollectorEntry.ts:64-83 | the readable lines up to the first error are delivered, in order, each to the team that its role resolves to then |
| UsageCollector.UsageCollector.HandleEvent | src/lambdaEntrypoints/usageCollectorEntry.ts:51-85 | the same over all objects of an event |
| UsageCollector.StopsAtUnreadable | src/lambdaEntrypoints/usageCollectorEntry.ts:57-84 | objects after an entry without a date change nothing |
| UsageCollector.UndatedEntryHidesTheRest | src/usageCollector.ts:137-143 | an event whose first object has an undated entry adds nothing, though its second object is good |
| UsageCollector.RerunsConserveTotals | src/lambdaEntrypoints/usageCollectorEntry.ts:57-84 | any number of attempts that die and start over, with roles resolved anew each time, then a complete run, leave the grand total of one complete run |
| UsageCollector.RerunsCountOnce | src/lambdaEntrypoints/usageCollectorEntry.ts:57-84 | and the table of one complete run, when the teams stay the same |
| UsageTable.RunningTotalIsInputPlusOutput | src/mantleUsageCollector.ts:92-116 | the running total is input plus output in every row, however both pipelines interleave |
| UsageTable.BookedOnItsTeam | src/usageCollector.ts:261-325 | a new dated request adds its four counts to the row of its team, model and day, and to no other row |
| UsageTable.NotBooked | src/usageCollector.ts:261-270 | a known or undated request changes nothing |
| ConverseAccounting.ProcessedIsSeen | src/usageCollector.ts:261-270 | the dedup table holds exactly the requests delivered so far |
| ConverseAccounting.FirstsAreDistinct | src/usageCollector.ts:261-270 | the deliveries that count are one for each new request |
| ConverseAccounting.ExactlyOnce | src/usageCollector.ts:239-325 | under any order and duplication, each counter of a row grows by the first deliveries of distinct new requests attributed to it, as long as no absolute write overwrites it, which a cache counter never meets |
| ConverseAccounting.LastSet | src/mantleUsageCollector.ts:92-116 | the last absolute write to a row, if there is one |
| ConverseAccounting.SetAndThenOnce | src/mantleUsageCollector.ts:92-116 | in a row that both pipelines write, a token counter is what the last absolute write set and the first deliveries after it of the requests new by then |
| ConverseAccounting.TotalsAreConserved | src/usageCollector.ts:239-325 | the totals over all teams, unmapped included, grow by the tokens of the distinct new requests |
| ConverseAccounting.TotalOfRequests | src/usageCollector.ts:239-325 | the growth depends only on which requests are delivered, not on order, repetitions or the teams that deliveries are attributed to |
| ConverseAccounting.OnlyTheSetMatters | src/usageCollector.ts:239-325 | when deliveries of one request agree, the table depends only on the set of requests |
| MantleUsage.MantleUsageWriter.WriteMantleUsage | src/mantleUsageCollector.ts:80-121 | token counters are overwritten, cache counters kept, other rows untouched |
| MantleUsage.MantleUsageWriter.CollectMantleUsage | src/mantleUsageCollector.ts:131-140 | every point is attributed and written, in order |
| MantleUsage.LastFor | src/mantleUsageCollector.ts:131-140 | the last record for a row, if there is one |
| MantleUsage.EachRowIsItsLastPoint | src/mantleUsageCollector.ts:80-121 | a row equals the last record written for it; rows without a record stay |
| MantleUsage.LastPointStands | src/mantleUsageCollector.ts:48-121 | the row of the project's team, or of the unmapped team, holds the last point's input and output, their sum, and the cache counters as before |
| MantleUsage.OtherRowsStay | src/mantleUsageCollector.ts:131-140 | a row without a point stays |
| MantleUsage.WritesAreIdempotent | src/mantleUsageCollector.ts:74-79 | collecting the same points again changes nothing |
| MantleUsage.OrderDoesNotMatter | src/mantleUsageCollector.ts:131-140 | records of distinct rows may be written in any order |
| MantleUsage.AttributionKeepsTokens | src/mantleUsageCollector.ts:48-59 | attribution drops no tokens, and points of unmapped projects go to the unmapped team |
| MantleUsage.RecordedPlusLost | src/mantleUsageCollector.ts:80-140 | tokens in the rows and tokens written over add up to the tokens of the points |
| MantleUsage.RowsAddUpIffNoneShared | src/mantleUsageCollector.ts:48-59 | rows add up to the points, unmapped projects included, if and only if no two points resolve to one row |
| MantleUsage.SharedRowLosesTokens | src/mantleUsageCollector.ts:131-140 | two projects of one team, three tokens collected, and a row of two |
| Registry.ModelRegistry.FromList | src/pricing/modelRegistry.ts:58-78 | for any list, both indexes agree with the last entries of each model and endpoint |
| Registry.ReplaceOrAppend | src/pricing/modelRegistry.ts:63-70 | a model's list keeps one entry for each endpoint, the last one |
| Registry.LastEntryIsLast | src/pricing/modelRegistry.ts:63-70 | of the entries for one model and endpoint the one with no later one counts |
| Registry.ModelRegistry.GetFor | src/pricing/modelRegistry.ts:81-83 | the last entry for the model and endpoint, or none |
| Registry.ModelRegistry.EndpointsFor | src/pricing/modelRegistry.ts:86-88 | exactly the endpoints with an entry, each once |
| Registry.ModelRegistry.Get | src/pricing/modelRegistry.ts:97-103 | the last runtime entry, else the last metrics entry, else none |
| Registry.ModelRegistry.EndpointFor | src/pricing/modelRegistry.ts:111-113 | an endpoint with an entry whenever there is one, the runtime endpoint if possible |
| Registry.ModelRegistry.IsMantle | src/pricing/modelRegistry.ts:116-118 | true if and only if the list has such an entry |
| Registry.ModelRegistry.IsConverse | src/pricing/modelRegistry.ts:121-123 | true if and only if the list has such an entry |
| Registry.ModelRegistry.List | src/pricing/modelRegistry.ts:126-128 | one entry for each model and endpoint of the list, the last one |
| MantleMetrics.MantleModelIds | src/lambdaEntrypoints/mantleUsageCollectorEntry.ts:46-50 | each metrics model once, even when it is listed for several regions |
| MantleMetrics.BuildSpecs | src/lambdaEntrypoints/mantleUsageCollectorEntry.ts:52-58 | every project and model exactly once |
| MantleMetrics.DecimalReadsBack | src/mantleMetrics.ts:69-70 | the number in a query id can be read back |
| MantleMetrics.IdsAreUnique | src/mantleMetrics.ts:69-72 | an id determines its position and token type |
| MantleMetrics.BuildMantleMetricQueries | src/mantleMetrics.ts:61-100 | each metric of each spec is asked for by one query, and the index books the id of every query under the spec and the token type that it asks for, and knows no other |
| MantleMetrics.QueryIdsAreUnique | src/mantleMetrics.ts:68-97 | no two queries share an id |
| MantleMetrics.CollectResults | src/lambdaEntrypoints/mantleUsageCollectorEntry.ts:64-79 | over chunks of 450 and any paging, each query gets all of its datapoints and none twice |
| MantleMetrics.ParseMantleMetricResults | src/mantleMetrics.ts:110-150 | exactly the pairs with activity get a point, one each, with their accumulated totals |
| MantleMetrics.TotalIsBag | src/mantleMetrics.ts:118-143 | a total depends only on the bag of datapoints of the one matching query, not on splits or order |
| MantleMetrics.PointIsExact | src/mantleMetrics.ts:110-150 | a spec's totals are the sums of its recorded datapoints; any other pair gets nothing |
| MantleMetrics.PointsOfDay | src/lambdaEntrypoints/mantleUsageCollectorEntry.ts:60-84 | end to end: when answers bring what is recorded for the metrics asked for, in any chunking, paging, splitting and order, the points are exactly the specs with activity and their exact sums |
| CurUsageType.SuffixMatchIsSplit | src/cur/curUsageTypeParser.ts:93-127 | a suffix pattern matches exactly the bodies that are a non-empty line and the suffix, with that line as model |
| CurUsageType.MantleMatchIsSplit | src/cur/curUsageTypeParser.ts:71-91 | the metrics pattern matches exactly one split into model, marker and word |
| CurUsageType.StripsTheRegion | src/cur/curUsageTypeParser.ts:28-37 | exactly the region prefix is stripped, whatever follows it |
| CurUsageType.AtMostOneRuntimeForm | src/cur/curUsageTypeParser.ts:93-127 | no body fits two of the cross-region, tiered and plain patterns, so their order cannot matter |
| CurUsageType.MantleMeetsOnlyTiered | src/cur/curUsageTypeParser.ts:71-115 | the metrics pattern overlaps only the tiered one, and only for models ending in -mantle |
| CurUsageType.ReadsBackIffReadable | src/cur/curUsageTypeParser.ts:43-136 | for every region, model and documented form, parsing gives back the components if and only if the form can carry the model |
| CurUsageType.FormTexts | src/cur/curUsageTypeParser.ts:43-127 | the suffixes of the plain, metrics and cache forms, to the letter |
| CurUsageType.TieredTexts | src/cur/curUsageTypeParser.ts:104-115 | those of the tiered forms |
| CurUsageType.CrossRegionTexts | src/cur/curUsageTypeParser.ts:93-102 | those of the cross-region forms |
| CurUsageType.TierOfWord | src/cur/curUsageTypeParser.ts:132-136 | the word of a metrics type names the tier; any word but priority and flex is standard |
| CurUsageType.MantleNamesAreMisread | src/cur/curUsageTypeParser.ts:71-115 | what a tiered usage type of a model ending in -mantle is read as |
| CurUsageType.ParsedIsExplained | src/cur/curUsageTypeParser.ts:43-136 | whatever is parsed is the model and the suffix of one documented form; only after a cache marker may more follow |
| TeamCost.ParsePerTeamRows | src/lambdaEntrypoints/curTeamCostEntry.ts:33-53 | the parsed rows are the report rows of known usage types, each once and in order, under their team tag, or as untagged, and the parsed model and endpoint, with their cost and tokens; their totals are those of these report rows |
| TeamCost.PerTeamCost | src/lambdaEntrypoints/curTeamCostEntry.ts:33-90 | from the report to the export, grand totals of cost and tokens are those of the report rows of known usage types |
| TeamCost.KeyTellsApart | src/lambdaEntrypoints/curTeamCostEntry.ts:70 | a key determines team, model and endpoint if the teams, or the models, have no vertical bar |
| TeamCost.Group | src/lambdaEntrypoints/curTeamCostEntry.ts:67-86 | one row for each key, with the sums under the key and the names of its first row |
| TeamCost.GroupsConserve | src/lambdaEntrypoints/curTeamCostEntry.ts:67-86 | grand totals of cost and tokens are those of the input, even where keys collide |
| TeamCost.CollideIff | src/lambdaEntrypoints/curTeamCostEntry.ts:70 | different names share a key if and only if the endpoints agree and one team with a bar begins with the other team and runs on into its model |
| TeamCost.RunsOnShares | src/lambdaEntrypoints/curTeamCostEntry.ts:70 | in these two triples, one part of the name stands at the end of one team and at the beginning of the other model |
| TeamCost.NoCollisionsIff | src/lambdaEntrypoints/curTeamCostEntry.ts:70 | the same for all pairs of input rows |
| TeamCost.OwnRowsIffNoCollisions | src/lambdaEntrypoints/curTeamCostEntry.ts:70 | every team, model and endpoint has its own row if and only if no two share a key |
| TeamCost.RowsAreExact | src/lambdaEntrypoints/curTeamCostEntry.ts:67-86 | then each row is the exact sum of the input rows with its names |
| TeamCost.NoBarsNoCollisions | src/lambdaEntrypoints/curTeamCostEntry.ts:70 | names without bars never collide |
| TeamCost.BarsCollide | src/lambdaEntrypoints/curTeamCostEntry.ts:70 | two triples with bars that do |
| TeamCost.SortedIsStable | src/lambdaEntrypoints/curTeamCostEntry.ts:87-89 | rows of one team and model keep their order |
| TeamCost.AggregatePerTeamCost | src/lambdaEntrypoints/curTeamCostEntry.ts:67-90 | one exact row for each key, grand totals kept, ordered by team and then model |
| AuditLog.PaddedKeepsOrder | src/usageCollector.ts:137-143 | fixed-width numbers compare as strings as they do as numbers |
| AuditLog.DaysKeepOrder | src/usageCollector.ts:137-143 | so do days written as year, month and day |
| AuditLog.SuffixIncludes | src/auditLog.ts:155-156 | what the suffix of the upper bound lets in: whatever begins with the bound |
| AuditLog.RangeIsBetween | src/auditLog.ts:148-175 | for any bounds whatever, which timestamps and ids are in the range |
| AuditLog.RangeIsDays | src/auditLog.ts:148-175 | for dates, a sort key is between the bounds if and only if its day is between them, both included |
| AuditLog.BareBoundLosesLastDay | src/auditLog.ts:135-141 | without the suffix of the upper bound no entry of the last day would be found |
| AuditLog.AuditTable.WriteAuditEntry | src/auditLog.ts:99-129 | the entry is stored under its team and its timestamp with the id |
| AuditLog.PartitionsDiffer | src/auditLog.ts:56-66 | different teams have different partitions |
| AuditLog.AuditTable.ListAuditEntries | src/auditLog.ts:148-190 | over any paging and for any bounds, exactly the entries written for the team between them, each once; for dates, exactly those of the days from one to the other |
| Retry.NeverShrinkIff | src/retry.ts:46-54 | for every first delay and multiplier that is not negative, delays never shrink if and only if the multiplier is at least 1, or the first delay is 0, or the cap is not positive |
| Retry.DelaysMultiply | src/retry.ts:46-54 | the first delay is the initial one and each next one the multiple of the one before, both up to the cap |
| Retry.TotalIsBounded | src/retry.ts:46-54 | the delays of n failed attempts add up to at most n times the cap |
| Retry.StopsAtFirstSuccess | src/retry.ts:82-99 | every call before the last failed, and only a spent budget ends in failure |
| Retry.RetryWithBackoff | src/retry.ts:66-99 | calls made, delays slept and outcome, for any operation and any options; the error is that of the last attempt |
| Retry.CallsOfOneInvocation | src/retry.ts:120-146 | an operation that fails f times is called min(f + 1, k) times |
| Retry.FirstSuccess | src/retry.ts:102-113 | shared by invocations with a budget of k each, it first succeeds in invocation f / k + 1, after f + 1 calls |

## Left out

- Roles are identified by their ARN. IAM calls use the role name alone, so equally named roles under different paths
  or accounts are not told apart by the source.
- Policy names are hashed in the source; a policy is identified by role, endpoint and model. Policy documents, and
  model ids that are not safe in them, are not modelled.
- The time of blocking (`blockedAt`), record expiry other than in the role cache, and legacy rows without an endpoint
  (read as the runtime endpoint).
- A failing audit write: in the source it lies in the same guarded block as the IAM call.
- One reading of the clock serves a whole batch; the source reads it again for each record. The day is the same
  unless midnight falls in between.
- Triggers of a run are atomic, and their queries are answered from the tables as they are. Between the reads and the
  writes of a usage change `LateKeepsExactIff` lets anything happen, and takes a listing of any age; the other triggers
  are not taken apart, and what overlaps do to the log and the announcements is not modelled.
- A tagging that dies is one whose next call fails. A reset that dies is the run of the overrides of its first pairs
  and an override that dies (`ResetIsARun`).
- DenyIffBlocked: is the case of runs without failing calls, mixed endpoints, retagging and mapping changes of
  `RunIsExactIff`, which excludes none of them.
- OneEndpointIsEnough: asks that every policy keeps its row and that no invocation dies; `StepIsHonestIff`,
  `NoFalseRestore`, `StepKeepsLogIff` and `AuditReplay` ask for neither.
- RerunsCountOnce: takes the team of a role as fixed between the attempts, and lines of one request as equal;
  `RerunsConserveTotals` asks for the same entries only, and `ExactlyOnce` for neither.
- PointsOfDay: takes each chunk's answer to hold the datapoints of its own queries, each once.
- CrashAndRetryIsHarmless: takes all passes to fall on one day, the quotas and the role mapping as fixed, one endpoint
  for each key and IAM calls as successful, and compares rows and policies; audit entries and notifications may be
  repeated. `RetryIsExactIff` is about passes of any days. Failing calls are in `CutKeepsExactIff`.
- CompleteMeansSettled: takes the role listing and the tags as fixed while the job runs, and no other writer of the
  cache. The queue is a set: two copies of one message are one message that is delivered twice.
- TotalsAreConserved: covers runs of the per-request pipeline alone, since an absolute write replaces a total;
  `SetAndThenOnce` and `RecordedPlusLost` account for such writes. Dedup records do not expire.
- Token amounts are integers and costs are reals; floating-point rounding and the conversion of usage units are not
  modelled. The locale's order of strings is an arbitrary total preorder.
- Timestamps are a valid date and an arbitrary time of day; calendar arithmetic (which dates exist) is not modelled.
  Audit retention is not modelled.
- Field checks of raw log records: a line is a parsed entry or is skipped.
- Environment reading, Lambda event envelopes, gzip, Athena, the CDK stack, the web console, notification texts,
  admin request validation, analytics exports and discovered teams.
