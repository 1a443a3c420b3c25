# Verified model of the dbtx reconciliation control plane

dbtx keeps deployed dbt environments in step with their code and their sources. This project models, in Dafny, the
logic behind its SQL and proves what that logic achieves over every input, every run and every interleaving of
transactions. `dafny verify dfyconfig.toml` checks all of it.

Tables are maps, and one SQL statement or transaction is one method or one protocol step; only an admission is one step
of several, with its parts in a module of their own. Code that updates state in place is a class whose methods are proved against functions of the old state; the theorems are about those functions
and about finite executions (a list of steps with the states between them, any number of actors interleaved).

| files | what they model |
|---|---|
| `graph.dfy`, `planner.dfy`, `planner_convergence.dfy` | The code-change planner: worklist, memoised recursion over parents, selection; and what planning and running, repeated, achieve. |
| `replanning.dfy` | Replanning a pending plan against live state before it is admitted. |
| `ancestor_index.dfy` | The ancestor index and the search it replaces, as fixpoints on any finite graph. |
| `watermarks.dfy`, `watermark_safety.dfy` | Source watermarks as a protocol of interleaved runs, and what holds in every execution. |
| `watermark_convergence.dfy`, `watermark_course.dfy`, `watermark_cycle.dfy` | Running what is stale, one node after the other or interleaved, advancing the pointers, and when a cycle leaves nothing to do. |
| `watermark_tables.dfy` | The watermark code itself over the tables it updates. |
| `control_plane.dfy`, `control_safety.dfy`, `control_theorems.dfy`, `control_requests.dfy` | Invocation lease, two-phase completion, plans and admission as a protocol; its invariants and theorems, and what each request leaves behind. |
| `control_row_steps.dfy`, `control_settlement.dfy`, `control_rows.dfy`, `control_late_rows.dfy` | When invocations, their plans and their open resource rows are settled, over whole executions. |
| `control_examples.dfy`, `control_failed_sweep.dfy`, `control_split_admission.dfy` | Executions that go other than one might expect; the parts of an admission. |
| `control_tables.dfy`, `control_sweep.dfy`, `admission.dfy` | The same transactions as methods over the tables; the whole timeout sweep; an admission together with its replan. |
| `event_stream.dfy`, `event_client.dfy`, `event_wire.dfy` | The event stream: replay and live tail on the server, framing and parsing on the client, and both ends together. |
| `fingerprints.dfy` | Reconcile input identity. |
| `manifest.dfy`, `manifest_entries.dfy` | Dependency maps, edge extraction and reconstruction of manifests. |
| `retry.dfy`, `retry_examples.dfy` | Retry backoff and the pacing of manifest preparation. |
| `common.dfy` | Option, result and the byte order of identifiers. |

## Findings

Where a promise holds only under a condition, the condition is proved exact, in both directions.

- The planner converges exactly when no candidate keeps a stored checksum while its target has none. The upsert of live
  node state takes `COALESCE(new, old)` (`src/db/runs.rs:480`), so such a node never matches its target again:
  `PlannerConvergence.LostChecksumIsPlannedForEver`.
- A watermark cycle settles exactly when nothing was unsatisfied, or there is an index and every indexed node below an
  unsatisfied source is reached from it along nodes that execute. A node behind a hop that never executes is listed as
  stale for ever in every execution that never runs sources, because a parent without a row does not enter the MIN
  (`src/db/watermarks.rs:121-157`): `WatermarkConvergence.UnfedIsStaleForEver`, `WatermarkConvergence.HopIsUnfed`.
- The index and the fallback search agree exactly when every key that is itself a non-source node has one of the keys
  above it: the search starts at the keys, the index one edge below them. `AncestorIndex.KeyThatIsNode` is a case.
- An admitted plan's invocation is running or awaits its forced completion exactly when no caller has abandoned the last
  forced completion of it. The loop of the timeout sweep forces a row, then tries to admit what is blocked in its
  environment, and the first admission that fails ends the request (`src/server/mod.rs:485-503`): what was timed out and
  not yet forced is never handed on again, its plan stays admitted and its rows stay open for ever. The page that cancels
  an invocation drops the forced completion altogether (`src/ui/invocations.rs:383-391`), until a cancel of the other
  kind makes up for it: `ControlSettlement.AdmittedIsActiveIff`, `ControlSettlement.AbandonedTimeoutIsFinal`,
  `ControlFailedSweep.FailedAdmissionHangs`, `ControlExamples.PageCancelHangs`.
- Open resource rows belong to running invocations, or ones that await their forced completion, exactly when each was
  inserted while that was so, and its invocation was not abandoned. A report checks its claim once
  (`src/server/invocations.rs:415-423`) and inserts rows later without looking again (`src/db/runs.rs:647-686`), so a row
  can open for an invocation that has ended; nothing but its own node's finish event closes it, and until then it blocks
  plans: `ControlLateRows.OpenRowsActiveIff`, `ControlLateRows.LateRowStaysOpen`, `ControlExamples.LateReportBlocks`.
- An admission releases the lease before it creates its invocation and marks its plan (`src/services/admission.rs:18-25`,
  `src/services/environments.rs:309-328`). Marking keeps executing plans apart exactly when none overlaps at that time. A
  plan superseded in between runs all the same, beside the plan that superseded it, and ends a second time:
  `ControlSplitAdmission.MarkKeepsExclusionIff`, `ControlSplitAdmission.SupersededBetween`.
- Forcing a completion is not idempotent on plans: a second cancel of an unclaimed invocation forces it again and counts
  the plan's failure again (`src/db/runs.rs:819-828`). Forcing again changes nothing exactly without a plan, or for a
  success forced at the same instant, and successes are never forced: `ControlTheorems.ForcedAgainIff`,
  `ControlTheorems.ForcedNeverSucceeds`, `ControlExamples.SecondCancelCountsAgain`.
- `child_map` is the transpose of `parent_map` exactly when no id that occurs in two sections has parents in any but the
  last of them: one map overrides, the other appends (`src/manifest.rs:233-238`): `Manifest.RepeatedIdBreaksTranspose`.
- One plan-and-run round is not enough in general, even from a settleable state: `PlannerConvergence.OneRoundIsNotEnough`.
- Nodes whose resource type is NULL are left out of the stale list, as `resource_type <> 'source'` is NULL for them, and
  nothing waits for them: `WatermarkConvergence.UntypedIsNeverStale`.
- Without any index row no pointer ever advances, although the stale list then falls back to the search.
- A worker's completion that carries status Running is rejected by the row constraint
  (`migrations/0001_init.sql:427-440`), as it clears the lease token of a running row; the model rolls it back.
- Preparations that keep failing are paced exactly as long as no call starts one between the stop of the one before and
  the record of its failure. A sweep or a cancel stops a preparation in one transaction, and its failure is recorded in
  another; a call in between starts at once and the failure is never counted. A second cancel counts the same failure
  again: `Retry.EarlyStartIff`, `RetryExamples.EarlyStart`, `RetryExamples.CanceledTwice`.
- The failure count of a preparation is kept when its input changes (`src/db/reconciliation.rs:855-864`), so a new input
  inherits the longer delay of the old one after its first failure: `RetryExamples.NewInputInheritsDelay`. The pacing
  bound holds from any such count.

## Model

| member | source | states |
|---|---|---|
| `Planner.PlanCodeChange` | `src/services/planning.rs:5-90` | the plan is a strictly sorted list of exactly the target nodes downstream of a modified node that have a wrong checksum, an unreconciled modified ancestor-or-self, or a success missing or older than their newest reconciled one; every target row of a buildable type that differs both from the baseline and from the live state is in it |
| `Planner.ModifiedIff` | `src/services/planning.rs:11-28` | a node is modified exactly when a target row of it is a model, seed, snapshot, test or unit test, and the last baseline row of it has another checksum or is missing while the target has one |
| `Planner.TargetIsLastRow` | `src/services/planning.rs:15-18` | of target rows with one identifier the last one gives the checksum |
| `Planner.ChangedIsSelected` | `src/services/planning.rs:24-69` | such a row is selected where the live checksum is not the target's |
| `Planner.DownstreamClosure` | `src/services/planning.rs:48-56` | the stack loop over child lists ends, on any acyclic edge list, with exactly the target nodes that a path through target nodes leads to from a modified node |
| `Planner.PushUnseen` | `src/services/planning.rs:51-55` | one popped node: exactly its unseen target children enter the candidates, and exactly those are pushed |
| `Planner.IndexEdges` | `src/services/planning.rs:35-46` | the child and parent maps list exactly the edges |
| `Planner.SelectStale` | `src/services/planning.rs:58-89` | filtering the ordered candidates keeps exactly the stale ones, sorted, whatever order the memo was filled in |
| `Planner.AncestorPass.Compute` | `src/services/planning.rs:98-154` | from any sound memo the recursion ends and returns the summary of all modified ancestors and the node itself; the memo stays sound and keeps its entries |
| `Planner.AncestorPass.OwnRequirement` | `src/services/planning.rs:111-125` | what a node asks for itself: nothing unless modified, its success time if reconciled, a flag if not |
| `Planner.AncestorPass.IsStale` | `src/services/planning.rs:62-85` | the test made with the requirement is staleness as defined by paths, checksums and times |
| `Planner.SummaryOfUnion` | `src/services/planning.rs:140-149` | merging two requirements summarises the union of the root sets behind them |
| `Planner.SummaryUnique` | `src/services/planning.rs:92-154` | a root set has one summary, so the result does not depend on the order of visits or on what the memo held |
| `Planner.RootsDecompose` | `src/services/planning.rs:111-150` | the modified ancestors-or-self of a candidate are itself, if modified, and those of its candidate parents; parents that are no candidates contribute none |
| `Planner.RequirementDecidesStale` | `src/services/planning.rs:73-84` | the requirement's two fields decide staleness, in both directions |
| `PlannerConvergence.UnreconciledRootSelectsDownstream` | `src/services/planning.rs:58-84` | every node downstream of an unreconciled modified node is selected |
| `PlannerConvergence.LeftOutIffCurrent` | `src/services/planning.rs:58-84` | a candidate is left out exactly when it has its target checksum and has succeeded no earlier than each of its reconciled modified roots |
| `PlannerConvergence.EmptyPlanIffCurrent` | `src/services/planning.rs:24-90` | the plan is empty exactly when every modified node and everything downstream is current |
| `PlannerConvergence.RoundExists` | `src/services/planning.rs:5-90` | every plan can be run in topological order |
| `PlannerConvergence.RoundReconciles` | `src/db/runs.rs:455-505` | after one round every candidate has its target checksum and a success, where none keeps a stored checksum that its target lacks |
| `PlannerConvergence.StaleAfterRound` | `src/services/planning.rs:5-90` | what is stale after a round was not run in it and has a modified root above it that was |
| `PlannerConvergence.StaleDepth` | `src/services/planning.rs:5-90` | each round pushes what is still stale further down: after k rounds it has at least k modified roots above it |
| `PlannerConvergence.PlannerConverges` | `src/services/planning.rs:5-90` | after as many plan-and-run rounds as there are modified nodes the plan is empty, if and only if no candidate keeps a stored checksum where its target has none |
| `PlannerConvergence.UnsettleableNeverEmpties` | `src/db/runs.rs:469-486` | from a state in which a candidate keeps a stored checksum that its target lacks, no number of rounds empties the plan |
| `PlannerConvergence.LostChecksumIsPlannedForEver` | `src/db/runs.rs:469-486` | such a problem for any identifier: a model whose target manifest has no checksum is planned again after every round |
| `PlannerConvergence.OneRoundFromUnreconciled` | `src/services/planning.rs:5-90` | one round is enough when every modified root starts out unreconciled, under the same condition and no other |
| `PlannerConvergence.OneRoundIsNotEnough` | `src/services/planning.rs:5-90` | for any three identifiers, a state in which one round leaves a plan |
| `Replanning.PlanRow.ReplanCodeChange` | `src/services/planning.rs:379-447` | replanning keeps a plan without target manifest; else it selects exactly what is stale, and completes the plan exactly when everything is current |
| `Replanning.PlanRow.ReplanSourceState` | `src/services/planning.rs:449-525` | a source plan is completed when its events are satisfied or nothing under its keys is behind them, else selects exactly what is behind, ascending; a row transition is one the admission protocol allows |
| `Replanning.PlanRow.ReplanPending` | `src/services/planning.rs:360-377` | dispatch on the stored reason; a plan without baseline or with an unknown reason is left alone |
| `Replanning.PlanRow.UpdateSelection` | `src/db/reconciliation.rs:531-562` | any new selection, the empty one included, replaces the old one and clears the retry time, nothing else of the plan |
| `Replanning.PlanRow.CompleteNoop` | `src/db/reconciliation.rs:564-614` | the plan is completed with an empty selection, no blocker and no failure count |
| `Replanning.PlanRow.SourceEventIds` | `src/services/planning.rs:163-178` | the listed event ids, or the single one if none is listed, each once and ascending |
| `Replanning.AreEventsSatisfied` | `src/db/reconciliation.rs:991-1020` | true exactly when no listed event that exists lies beyond its source's pointer |
| `Replanning.ReplanAfterRunIsEmpty` | `src/services/planning.rs:449-525` | replanned after everything stale has run, in any interleaving that respects stale parents, a source plan over the events unsatisfied before selects nothing more if and only if every node under its sources is fed by them or, without an index, nothing is below them |
| `AncestorIndex.ClimbAncestors` | `src/db/watermarks.rs:17-82` | the recursive join ends on any finite edge list, cyclic ones included, with the least set closed upward |
| `AncestorIndex.PopulateAncestorSources` | `src/db/watermarks.rs:17-82` | the index holds a row exactly for each node with a tracked source key that is the node or is above it |
| `AncestorIndex.DescendFrom` | `src/db/reconciliation.rs:1022-1054` | the downward search ends on any finite edge list with exactly what the keys reach |
| `AncestorIndex.ListDownstream` | `src/db/reconciliation.rs:1022-1054` | the fallback query lists exactly the non-source manifest nodes downstream of the keys, ascending |
| `AncestorIndex.IndexWithinSearch` | `src/db/watermarks.rs:473-522` | restricted to non-source manifest nodes, the index under tracked keys never lists more than the search |
| `AncestorIndex.IndexAgreesWithSearch` | `src/db/watermarks.rs:473-522` | index and search list the same nodes if and only if each key that is itself a non-source node has one of the keys above it |
| `AncestorIndex.KeyThatIsNode` | `src/db/reconciliation.rs:1022-1054` | keys for which index and search differ, for any two identifiers |
| `Watermarks.AlwaysRecorded` | `src/db/watermarks.rs:225-400` | in every interleaving each committed, staged and satisfied id is a recorded event of its own source |
| `Watermarks.ExecutionForward` | `src/db/watermarks.rs:305-400` | between any two points of an execution events are kept and watermarks, pointers and log only grow |
| `Watermarks.AdvancedOverIff` | `src/db/watermarks.rs:402-455` | an undisturbed advance call has exactly one outcome |
| `WatermarkSafety.NoClaimOnTheFuture` | `src/db/runs.rs:538-633` | each committed watermark was written by one step and has stood since, and is an event of its source that was recorded already at the last start step of the execution that wrote it |
| `WatermarkSafety.CommitFindsPast` | `src/db/runs.rs:596-611` | the same of whatever any commit step has loaded, whether the guard lets it through or not |
| `WatermarkSafety.StagedProvenance` | `src/db/watermarks.rs:225-254` | a staged row was staged by a start of its own run and node, no later than the last start |
| `WatermarkSafety.LoadedProvenance` | `src/db/runs.rs:595-611` | so was a row that a finish has loaded, however often the node has started, or been cleaned up, since |
| `WatermarkSafety.LoadTakesOwnRows` | `src/db/watermarks.rs:256-282` | a finish loads exactly the staged rows of its run and node |
| `WatermarkSafety.MarkProvenance` | `src/db/watermarks.rs:305-400` | a watermark was written by a commit step that passed the guard, and has held its value ever since |
| `WatermarkSafety.ContributorsDominate` | `src/db/watermarks.rs:108-172` | every parent watermark that entered the MIN of the start behind the write of a committed watermark stays at or above it for ever |
| `WatermarkSafety.AlwaysAudited` | `src/db/watermarks.rs:305-400` | each key's audit log is strictly increasing, each previous id is the entry before, and the last entry is the live row |
| `WatermarkSafety.PointersAlwaysReached` | `src/db/watermarks.rs:402-455` | under every interleaving of checks, pointer moves, commits and new events, every indexed non-source node under a source has a watermark at or above its pointer |
| `WatermarkSafety.AdvanceTakesPointer` | `src/db/watermarks.rs:577-624` | a pointer move takes the pointer to the event, unless it is there or beyond, and moves no other |
| `WatermarkSafety.CheckSucceedsIff` | `src/db/watermarks.rs:527-573` | a check succeeds exactly when the event is recorded, the index has a row, and every indexed non-source node under the source has reached the event |
| `WatermarkSafety.AdvanceFollowsCheck` | `src/db/watermarks.rs:402-455` | over every execution, a pointer can be moved to an event exactly when a check of it has succeeded before |
| `WatermarkConvergence.StaleWithinSearch` | `src/db/watermarks.rs:461-522` | the stale list lies within the downstream search, and equals the index's list when no watermark exists |
| `WatermarkConvergence.ListedIff` | `src/db/watermarks.rs:497-511` | with an index a node is listed exactly when, for some key above it, it has no row or has not reached some targeted event |
| `WatermarkConvergence.UntargetedEventIsIgnored` | `src/db/watermarks.rs:505-511` | a new event that is not targeted changes no list |
| `WatermarkConvergence.AlwaysInv` | `src/db/watermarks.rs:305-400` | in every execution of node runs a watermark exists only where the index and an executing path from the source allow one |
| `WatermarkConvergence.ExecuteProgress` | `src/db/runs.rs:551-630` | a successful execution moves nothing back, brings its node up to each candidate, and moves pointers only to events that every node has reached |
| `WatermarkCourse.StaleRunConverges` | `src/db/watermarks.rs:461-573` | when everything stale has run successfully, each node after its stale parents: no source has become unsatisfied, and the list, against the events unsatisfied before and against those unsatisfied after, is empty if and only if every listed node is fed by its source along executing nodes or, without an index, nothing is below the sources |
| `WatermarkCourse.ExecutionIsCourse` | `src/db/runs.rs:538-633` | this covers every stretch of an execution without new events in which each stale node starts after the finishes of its stale parents and commits what it staged, whatever other starts, commits, checks and advances interleave |
| `WatermarkCourse.RunIsCourse` | `src/db/runs.rs:538-633` | and running exactly the stale list node by node in topological order, each finish advancing pointers |
| `WatermarkCourse.StaleRunExists` | `src/db/watermarks.rs:461-522` | every stale list can be run so, from every state |
| `WatermarkConvergence.UnfedIsStaleForEver` | `src/db/watermarks.rs:108-172` | over every execution that runs nodes and never sources: once a source has an event, an indexed node that it does not feed is on the stale list, and the source stays unsatisfied |
| `WatermarkConvergence.HopIsUnfed` | `src/db/watermarks.rs:108-172` | such a manifest for any three identifiers: a node behind a hop that never executes |
| `WatermarkConvergence.HopIsStaleForEver` | `src/db/watermarks.rs:108-172` | there, in every execution and from the first event on, the node is on the stale list |
| `WatermarkConvergence.UntypedIsNeverStale` | `src/db/watermarks.rs:490-522` | for any two identifiers, a manifest whose index lists a node without resource type under a source: no stale list has it, and each event of the source passes for reached |
| `WatermarkTables.Tables.constructor` | `src/db/watermarks.rs:17-82` | a fresh environment: the index is computed, every table is empty |
| `WatermarkTables.Tables.LatestSourceEvent` | `src/db/watermarks.rs:175-202` | the greatest event id of the source, or none |
| `WatermarkTables.Tables.MinOverRows` | `src/db/watermarks.rs:121-127` | the least watermark per source over the given rows |
| `WatermarkTables.Tables.MinWithFallback` | `src/db/watermarks.rs:128-156` | parent sources without a row of their own enter with their newest event |
| `WatermarkTables.Tables.LoadParentWatermarksMin` | `src/db/watermarks.rs:108-172` | exactly the candidates of the protocol: per source the MIN over parent rows and rowless parent sources |
| `WatermarkTables.Tables.StartNode` | `src/db/runs.rs:551-594` | a node start stages exactly the candidates of the current state, and nothing for a node without index rows |
| `WatermarkTables.Tables.InsertCandidates` | `src/db/watermarks.rs:225-254` | one upsert per candidate; rows of other runs, nodes and sources stay |
| `WatermarkTables.Tables.CommitNodeWatermarks` | `src/db/watermarks.rs:305-400` | the loop of guarded upserts is the protocol's commits in order; it returns exactly the sources that moved |
| `WatermarkTables.Tables.DeleteCandidates` | `src/db/watermarks.rs:284-303` | exactly the staged rows of the run and node go |
| `WatermarkTables.Tables.FinishNode` | `src/db/runs.rs:595-630` | a promotable finish commits all staged rows and advances exactly the sources that moved; every finish discards the staged rows |
| `WatermarkTables.Tables.RunNode` | `src/db/runs.rs:551-630` | a start followed by a promotable finish is one execution as the convergence theorems take it, pointer advance included |
| `WatermarkTables.Tables.AreAllDownstreamSatisfied` | `src/db/watermarks.rs:527-573` | true exactly when the index is not empty and every indexed non-source node under the source has reached the event |
| `WatermarkTables.Tables.AdvanceOver` | `src/db/watermarks.rs:577-624` | one event: the pointer moves up to it exactly when all nodes have reached it, never down |
| `WatermarkTables.Tables.AdvanceSatisfied` | `src/db/watermarks.rs:402-455` | an undisturbed call leaves each pointer at the greatest event, of those beyond it, that all nodes have reached, or where it was |
| `WatermarkTables.Tables.ListStaleDownstreamNodes` | `src/db/watermarks.rs:461-522` | exactly the stale nodes, ascending: none without keys or targets; with an index, the non-source nodes indexed under a key whose row is missing or lies before some targeted event of the key; without one, those the search reaches |
| `WatermarkTables.Tables.ListUnsatisfiedSources` | `src/db/reconciliation.rs:951-989` | exactly the sources whose newest event lies beyond their pointer |
| `WatermarkTables.Tables.AdvanceAndLoadUnsatisfied` | `src/reconciler/cycle.rs:206-234` | advance, then reload: what is left is exactly what is unsatisfied after the advance |
| `WatermarkCycle.AdvanceReachesGreatest` | `src/db/watermarks.rs:402-455` | after an undisturbed advance the pointer is the greatest event that all indexed nodes have reached |
| `WatermarkCycle.OtherPointersStay` | `src/db/watermarks.rs:402-455` | and every pointer of another source is as before |
| `WatermarkCycle.AdvanceSettlesIffNothingStale` | `src/reconciler/cycle.rs:206-234` | after the advance nothing is unsatisfied exactly when the stale list was empty |
| `WatermarkCycle.CycleConverges` | `src/reconciler/cycle.rs:206-234` | everything stale runs, in any such interleaving, and an advance follows: nothing is left unsatisfied if and only if nothing was, or the index is not empty and every listed node is fed |
| `WatermarkCycle.NoIndexNoAdvance` | `src/db/watermarks.rs:527-540` | without index rows no pointer ever moves |
| `ControlTheorems.AlwaysInv` | `src/db/invocations.rs:533-1017` | over every interleaving, abandoned forced completions included: row constraint, pending forces agreeing with rows, plan and invocation links, rows and reports of existing and claimed invocations, exclusion, one pending plan |
| `ControlTheorems.EndedStaysEnded` | `src/db/invocations.rs:868-1017` | status, exit code, error and completion time never change once an invocation has ended, delayed forced completions included |
| `ControlTheorems.ClaimedAtMostOnce` | `src/db/invocations.rs:533-589` | in every interleaving an invocation is claimed at most once |
| `ControlTheorems.Fencing` | `src/db/invocations.rs:591-621` | an accepted heartbeat, completion or report comes from the one claim of its invocation, with the same worker and token, and the invocation has run under it all the time between |
| `ControlTheorems.ForcedAgrees` | `src/server/mod.rs:477-506` | a completion still to be forced always repeats what the row stores |
| `ControlTheorems.SweepEndsExactlyTheSilent` | `src/db/invocations.rs:716-737` | over any execution a sweep ends a claimed invocation exactly when the last claim or accepted heartbeat lies before the limit of its mode, and hands its completion on to be forced |
| `ControlRequests.SweepEndsExactlyTheLate` | `src/db/invocations.rs:693-714` | over any execution a sweep ends an unclaimed invocation exactly when its claim deadline has passed |
| `ControlRequests.SweptRow` | `src/db/invocations.rs:693-737` | what a sweep writes to each row, by the columns it tests |
| `ControlRequests.RunningCarriesFirstCancel` | `src/db/invocations.rs:623-648` | over every execution, a running invocation carries the time of the first cancel request, and none if there was none |
| `ControlRequests.AcceptedCompletionIsStored` | `src/db/invocations.rs:868-921` | an accepted completion with a terminal status is stored as it is |
| `ControlRequests.PlanEndsAsInvocation` | `src/db/runs.rs:795-811` | over every execution, a plan that completed, failed or was canceled with its invocation tells how the invocation ended |
| `ControlRequests.CompletionEndsPlan` | `src/db/runs.rs:795-842` | a success completes the plan and clears count and retry time, a failure or cancel counts one more and sets the next attempt after its delay; no other plan changes |
| `ControlRequests.CompletionCloses` | `src/db/runs.rs:720-741` | completing an invocation closes its own rows and no other |
| `ControlTheorems.ForcedAgainIff` | `src/db/invocations.rs:979-1017` | forcing a completion again, at any time, leaves invocations and rows alone; it changes nothing at all if and only if there is no plan, or it is a success forced at the same instant; what it does to the plan otherwise |
| `ControlTheorems.ForcedNeverSucceeds` | `src/db/invocations.rs:623-747` | what sweeps and cancels hand on to be forced is a failure or a cancel |
| `ControlExamples.SecondCancelCountsAgain` | `src/server/invocations.rs:273-309` | for any environment and resource, an execution with two cancels after which one plan has ended once and counts two failures |
| `ControlTheorems.ResourceExclusion` | `src/db/reconciliation.rs:616-666` | no two admitted plans of one environment with running invocations share a resource |
| `ControlRequests.PendingCounts` | `src/server/mod.rs:477-506` | over every execution, forced completions are conserved: handed on by a cancel of an unclaimed invocation or by a sweep, and each forced or abandoned once |
| `ControlSafety.ConflictsIff` | `src/db/reconciliation.rs:616-666` | an invocation conflicts with a plan exactly when it has an open row on a selected resource in the plan's environment, or runs for another admitted plan of the environment that selects one |
| `ControlSafety.StartsIffNothingOccupied` | `src/services/admission.rs:39-92` | a pending plan that stands after its replan and can be prepared starts if and only if no invocation occupies a resource it then selects |
| `ControlRequests.OutcomeIs` | `src/services/admission.rs:39-92` | when an admission has which outcome |
| `ControlRequests.BlockedByLeast` | `src/db/reconciliation.rs:411-441` | a blocked plan names the least invocation that occupies a resource it selects |
| `ControlSettlement.AdmittedIsActiveIff` | `src/server/mod.rs:477-506` | over every execution: an admitted plan's invocation is running or awaits its forced completion if and only if no caller has abandoned the last forced completion of it with no cancel handing it on since |
| `ControlSettlement.ActiveIffNotAbandoned` | `src/db/invocations.rs:623-747` | the same of any invocation that nothing has completed since it was active |
| `ControlSettlement.AbandonedTimeoutIsFinal` | `src/db/invocations.rs:678-747` | a time-out whose last forced completion is abandoned is never handed on again |
| `ControlSettlement.AbandonedPlanStays` | `src/server/mod.rs:485-503` | until a cancel hands it on, an abandoned invocation's plan stays admitted, unchanged |
| `ControlFailedSweep.FailedAdmissionHangs` | `src/server/mod.rs:485-503` | for any two environments and resources, an execution in which one sweep times out two invocations, the admission after the first force cannot prepare its run, and the second invocation is left failed and awaiting nothing, its plan admitted and its row open |
| `ControlFailedSweep.HangsForEver` | `src/server/mod.rs:485-503` | however such an execution goes on, the invocation awaits nothing, its plan stays admitted, and only a finish event of its node closes its row |
| `ControlExamples.PageCancelHangs` | `src/ui/invocations.rs:383-391` | for any environment and resource, an execution in which the page cancels an unclaimed invocation: it awaits nothing, its plan is admitted and its row open |
| `ControlLateRows.OpenRowActiveIff` | `src/db/runs.rs:635-688` | an open resource row's invocation is running or awaits its force exactly when it did at the step that inserted the row and has not been abandoned |
| `ControlLateRows.OpenRowsActiveIff` | `src/db/runs.rs:635-741` | over every execution: all open rows belong to active invocations if and only if each was inserted while its invocation was active and not abandoned |
| `ControlLateRows.LateRowStaysOpen` | `src/db/runs.rs:690-741` | a row inserted for an invocation that has ended stays open until its own node's finish is reported; no sweep, cancel or force closes it |
| `ControlLateRows.AbandonedRowStaysOpen` | `src/db/runs.rs:690-741` | so does an open row of a time-out whose forced completion was abandoned |
| `ControlLateRows.LateInsertIsReport` | `src/server/invocations.rs:407-429` | only a report of the worker that claimed the invocation inserts a row that late |
| `ControlRequests.ReportOpensRows` | `src/db/runs.rs:635-688` | a report of selected resources leaves a row for each, the new ones open in the invocation's environment |
| `ControlRequests.FinishClosesRow` | `src/db/runs.rs:690-718` | a report of a node's finish closes its row and no other |
| `ControlExamples.LateReportBlocks` | `src/server/invocations.rs:407-429` | for any environment and resource, an execution after which a failed and settled invocation has an open row that blocks every admission of a plan for the resource |
| `ControlTheorems.FinishedPlanStays` | `src/db/runs.rs:795-865` | completed, failed, canceled and superseded plans keep their status for ever |
| `ControlTheorems.OnePendingPlan` | `src/services/environments.rs:244-282` | whenever no reconcile call is between create and supersede, an environment has at most one planned or blocked plan; no lease is needed for it |
| `ControlSafety.InvKept` | `src/db/invocations.rs:533-1017` | each transaction keeps every invariant |
| `ControlSafety.RowEvolves` | `src/db/invocations.rs:533-1017` | what one transaction may do to one invocation row: an ended row is final, a claim is never undone or passed on |
| `ControlSafety.StartedWithoutOverlap` | `src/services/admission.rs:60-74` | when an admission starts its invocation, no executing plan of the environment overlaps the selection it has after replanning |
| `ControlTables.Db.ClaimNextInvocation` | `src/db/invocations.rs:533-589` | claims the earliest row that is running, unclaimed, unlocked, has a spec, is in a served queue, of the asked mode and not past its deadline, under a new token; nothing exactly when there is none |
| `ControlTables.Db.HeartbeatInvocation` | `src/db/invocations.rs:591-621` | refreshes the heartbeat exactly for the holder of the claim, and answers, at the end of any execution, whether a step of it has requested a cancel; any other call fails and changes nothing |
| `ControlTables.Db.FencePasses` | `src/db/invocations.rs:767-801` | the read that admits a report passes exactly for a matching claim and token |
| `ControlTables.Db.InsertSelectedResources` | `src/db/runs.rs:635-688` | one open row per name unless it is there, whatever the invocation's status; other rows stay |
| `ControlTables.Db.RequestCancelInvocation` | `src/db/invocations.rs:623-676` | first phase of a cancel: marks a claimed running row with the first request's time and nothing else, ends an unclaimed one, leaves an ended one, and returns what is to be forced |
| `ControlTables.Db.ReconcileTimedOutInvocations` | `src/db/invocations.rs:678-747` | two updates in one transaction amount to one sweep of every row; returns exactly what it timed out |
| `ControlTables.Db.ApplySideEffects` | `src/db/completion.rs:53-164` | closes the invocation's rows and ends its plan, with the retry time of its failure count |
| `ControlTables.Db.CompleteInvocation` | `src/db/invocations.rs:868-921` | completes exactly for the holder of the claim with a terminal status |
| `ControlTables.Db.ForceCompleteInvocation` | `src/db/invocations.rs:979-1017` | stores the completion, keeps the completion time that is there, closes rows, ends the plan |
| `ControlTables.Db.SweepAndForce` | `src/server/mod.rs:477-506` | the loop as one request makes it, admissions included: a timed-out invocation is settled afterwards if and only if it was forced before the first admission that failed, or needed no settling, and the plans of the rest are admitted still; all are, if every attempt gets its lease and can be prepared; it is a run of the protocol in which exactly the rest is abandoned |
| `ControlTables.Db.AdmitBlockedPlans` | `src/reconciler.rs:84-113` | tries the blocked plans of an environment up to the first that fails, which happens only for want of a lease or a preparation; touches no invocation that was there, nor its rows or plan |
| `ControlTables.Db.CreateAndSupersede` | `src/services/environments.rs:262-282` | the new plan is planned and the only pending one of its environment; exactly the pending plans of that environment are superseded by it |
| `ControlTables.Db.FirstConflict` | `src/db/reconciliation.rs:616-666` | the least conflicting invocation, or none exactly when no invocation occupies a resource of the plan |
| `ControlTables.Db.StartAndMarkAdmitted` | `src/db/reconciliation.rs:443-529` | creates the invocation, admits the plan, opens one row per selected resource |
| `ControlSplitAdmission.PartsAreAdmission` | `src/services/environments.rs:304-333` | deciding under the lease, creating the invocation and marking the plan, undisturbed, are one admission step |
| `ControlSplitAdmission.MarkKeepsExclusionIff` | `src/db/reconciliation.rs:443-529` | marking a plan admitted keeps executing plans disjoint if and only if none overlaps it at that time |
| `ControlSplitAdmission.SupersededBetween` | `src/services/environments.rs:304-333` | for any environment and resource: superseded between the parts, a plan's invocation runs beside that of its successor, both with open rows on the resource, and the superseded plan ends again |
| `ControlTables.Db.AdmitAndStartPlan` | `src/services/admission.rs:39-92` | one admission, for any replan: not found, not admissible, completed by the replan, blocked by the least conflict, not prepared, or started, with the state of each |
| `Admissions.AdmitLive` | `src/services/admission.rs:39-92` | the same with the replan that the plan's reason and the live state dictate; the plan row it leaves is the stored one |
| `EventStream.StreamEvents` | `src/invocation_runtime.rs:282-305` | the replay and tail loop emits the history, then each live item beyond the last one seen, until the channel closes |
| `EventStream.EmitNext` | `src/invocation_runtime.rs:290-305` | one more thing received: a live item is emitted exactly when it is beyond everything seen and the channel was open; a notice of dropped items neither emits nor ends the tail |
| `EventStream.OutputIncreasing` | `src/invocation_runtime.rs:282-305` | whatever is pushed, in whatever order and with whatever losses, emitted sequence numbers strictly increase and exceed the resume point |
| `EventStream.ExactlyOnce` | `src/server/invocations.rs:478-512` | subscribe, then load: each event after the resume point is delivered once, in order and with no gap, wherever the two fall among appends and pushes |
| `EventStream.ReconnectsLeaveNoGap` | `src/server/invocations.rs:478-512` | over any number of sessions, each resumed after the last event read, the client reads consecutive events |
| `EventClient.FindBlank` | `src/client.rs:523-523` | an index where a blank line is |
| `EventClient.FoundIsLeftmost` | `src/client.rs:523-523` | no blank line starts before the one found |
| `EventClient.DrainFrames` | `src/client.rs:523-533` | the inner loop takes exactly the whole frames off the buffer, for any text still to come |
| `EventClient.TakeChunk` | `src/client.rs:520-534` | one chunk keeps what is delivered in step with the frames of the whole text |
| `EventClient.StreamInvocationEvents` | `src/client.rs:503-536` | what is delivered is a function of the joined text alone: its frames in order up to the first completed event or the first that does not decode |
| `EventClient.ChunkingIndependent` | `src/client.rs:519-534` | however the text is cut, the buffer yields the frames of the whole text |
| `EventWire.ParseFrame` | `src/client.rs:567-578` | the last data line of a frame, trimmed at its start, is decoded; a frame without data, or with empty data, is skipped |
| `EventWire.RenderedText` | `src/invocation_runtime.rs:307-312` | the text of a message: its event type, id and data, each on a line, and a blank line |
| `EventWire.LastDataCounts` | `src/client.rs:567-573` | of several data lines the last is taken, its white space trimmed at the start |
| `EventWire.LinesBreak` | `src/client.rs:569-569` | a line ends at the first line feed, without a carriage return before it |
| `EventWire.TrimStartDrops` | `src/client.rs:571-571` | trimming drops exactly the leading characters with the property White_Space |
| `EventWire.TextReadBack` | `src/invocation_runtime.rs:307-312` | the client delivers from the server's text exactly the messages sent, comments skipped |
| `EventWire.CommentsSkipped` | `src/server/invocations.rs:511-511` | comments between events change nothing that is delivered |
| `EventWire.EventsReadBack` | `src/client.rs:503-578` | from any chunks of the emitted text, comments included, the client delivers the emitted events in order up to the first that completes the stream or does not decode |
| `EventWire.ClientReadsLog` | `src/server/invocations.rs:478-512` | from log to client: a subscription anywhere among appends and pushes, any chunks: the client delivers exactly the log after the resume point, each event once and in order, up to the first that completes the stream |
| `Fingerprints.SourceFingerprint` | `src/services/reconcile_identity.rs:105-115` | the prefix and the comma-joined decimals of the distinct ids in ascending order |
| `Fingerprints.DropRepeats` | `src/services/reconcile_identity.rs:107-108` | dropping an element equal to the one before leaves each id once, ascending |
| `Fingerprints.JoinDecimals` | `src/services/reconcile_identity.rs:109-113` | the decimals joined with commas |
| `Fingerprints.SourceFingerprintsEqual` | `src/services/reconcile_identity.rs:105-115` | source fingerprints are equal exactly when the sets of event ids are |
| `Fingerprints.RenderedInjective` | `src/services/reconcile_identity.rs:109-114` | decimal rendering and comma join are jointly injective, negative numbers and the empty list included |
| `Fingerprints.CodeChangeFingerprintsEqual` | `src/services/reconcile_identity.rs:91-103` | code-change fingerprints are equal exactly when commit and optional baseline are, whatever characters the commit holds |
| `Fingerprints.UuidTextInjective` | `src/services/reconcile_identity.rs:101-103` | different baselines have different texts |
| `Fingerprints.FingerprintDecides` | `src/services/reconcile_identity.rs:59-75` | the fingerprint alone tells inputs apart, across reasons too |
| `Fingerprints.MatchesPlanIffSameInputs` | `src/services/reconcile_identity.rs:77-80` | a stored plan matches an identity exactly when both come from the same reason and inputs |
| `Fingerprints.MatchesPlanIff` | `src/services/reconcile_identity.rs:77-80` | whatever a stored plan holds, it matches exactly with the reason's text and the same fingerprint |
| `Fingerprints.PreparationDecides` | `src/services/reconcile_identity.rs:82-89` | preparations share a fingerprint exactly when their reconcile inputs are the same, and never with a plan |
| `Fingerprints.IdentityOf` | `src/services/reconcile_identity.rs:59-75` | the identity of commit and baseline, or of a list of events |
| `Manifest.RebuildDependencyMaps` | `src/manifest.rs:203-243` | the nested loops over seven sections build the parent map by overriding and the child lists by appending, in order |
| `Manifest.VisitEntry` | `src/manifest.rs:222-239` | one entry records its parents and is appended once per listed parent |
| `Manifest.ChildMapCounts` | `src/manifest.rs:234-238` | a child is in a parent's list as often as entries under its id mention that parent |
| `ManifestEntries.ChildMapIff` | `src/manifest.rs:203-243` | the child map has `c` under `p` exactly when an entry for `c` in one of the seven sections lists `p` at `depends_on.nodes` |
| `Manifest.EntriesMeaning` | `src/manifest.rs:209-240` | mentions add up over the sections, while the parent map keeps the last section's list |
| `Manifest.TransposeIff` | `src/manifest.rs:203-243` | the child map is the multiset transpose of the parent map if and only if no id that occurs in two sections has parents in any but the last of them |
| `Manifest.DistinctIdsTranspose` | `src/manifest.rs:203-243` | with ids distinct across sections it is the transpose |
| `Manifest.RepeatedIdBreaksTranspose` | `src/manifest.rs:203-243` | a manifest for which it is not |
| `Manifest.Reconstruct` | `src/manifest.rs:59-75` | exactly the nodes that were there, each in its successful version if there is one, else as it was; both maps list what the entries of the result say; every other field is unchanged |
| `Manifest.ReconstructCompose` | `src/manifest.rs:59-75` | reconstructing twice is reconstructing once with the second versions laid over the first |
| `Manifest.ReconstructIdempotent` | `src/manifest.rs:59-75` | reconstructing again with the same versions changes nothing |
| `Manifest.ExtractEdges` | `src/manifest.rs:184-201` | each edge as often as the parent map lists it, and no other |
| `Manifest.EdgesAreDependencies` | `src/manifest.rs:59-75` | edges extracted after reconstruction are exactly the declared dependencies, under the same condition and no other |
| `Retry.BackoffGrows` | `src/db/mod.rs:424-428` | delays never shrink and stay within 5 and 300 seconds |
| `Retry.LeastWaitStep` | `src/db/mod.rs:424-428` | the closed form of the summed delays |
| `Retry.Preparations.EnsureManifestPreparation` | `src/manifest_preparation.rs:30-99` | available exactly with a manifest; in progress while one runs for the commit or the same input backs off; else one is started, keeping the failure count |
| `Retry.Preparations.RecordCompletion` | `src/db/completion.rs:166-229` | a completion counts and sets the retry time only in the row its invocation still owns; a success resets both |
| `Retry.Preparations.CompleteManifestPrepare` | `src/db/invocations.rs:868-921` | a worker's completion ends the invocation and records it in one transaction |
| `Retry.Preparations.ForceManifestPrepare` | `src/db/invocations.rs:979-1017` | a forced completion records the failure of an invocation that was stopped before |
| `Retry.AttemptsArePaced` | `src/manifest_preparation.rs:68-99` | while one input keeps failing, and no call starts a preparation between a stop and the record of its failure, the attempt after k failed ones starts at least 5(2^min(k,6) - 1) + 300 max(0, k - 6) seconds after the first failure, over any interleaving of calls, completions, stops, repeated cancels, forced and abandoned completions |
| `Retry.EarlyStartIff` | `src/manifest_preparation.rs:54-87` | that condition is exact: a call could start an attempt before that time if and only if a failure is unrecorded when it is made |
| `Retry.PendingCounts` | `src/server/mod.rs:477-506` | each stop and each repeated cancel hands on one forced completion, each of which is forced or abandoned once |
| `Retry.AlwaysOnePerCommit` | `src/manifest_preparation.rs:54-66` | over every interleaving no two running preparations are for one commit |
| `Retry.CancelledWasStopped` | `src/db/invocations.rs:623-676` | only a preparation that a cancel has stopped can be cancelled again |
| `Retry.CapturedStartsNoMore` | `src/manifest_preparation.rs:42-52` | once a preparation of a commit has succeeded, none is started for it again |
| `RetryExamples.EarlyStart` | `src/manifest_preparation.rs:54-87` | for any input, a preparation stopped at 0 is started again at 1, and its failure never counted |
| `RetryExamples.CanceledTwice` | `src/server/invocations.rs:273-309` | for any input, one failed attempt that is cancelled again counts twice and is followed after 11 seconds, not 5 |
| `RetryExamples.NewInputInheritsDelay` | `src/db/reconciliation.rs:855-864` | for any two inputs, a first failure that is followed after the delay of a second |

## Left out

- SQL, connection pools, JSON decoding, HTTP routing, OpenAPI, HTML and CLI output, encryption, profiles, drafts,
  release, project and environment CRUD: plumbing and field copying.
- The dbt process, git and log text: a run enters the model as start and finish steps with a status.
- Clocks and generated ids are parameters: times are integers and ids of new rows are fresh. Event
  ids may be recorded in any order; the newest event of a source is the one with the greatest id, as in the queries.
- Columns that no modelled branch reads: `observed_at` times, resource types and names of selected resources, metadata
  other than event ids and source keys, error texts of plans.
- `current_node_state` beyond checksum and success time, and its rebuild: seeded environments differ from a recomputation.
- ControlTables.Db.AdmitAndStartPlan: takes any replan; `Admissions.AdmitLive` takes the one that live state dictates.
  Whether the run can be prepared stays a parameter, as that depends on projects, profiles and repositories.
- Interleavings inside one admission: in the protocol it is one step. `ControlSplitAdmission` has its parts, and what
  goes wrong between them; the theorems on executions hold where nothing comes between.
- Concurrent calls that ensure a manifest preparation: a call is one step, from its reads to the row it marks. Two
  interleaved calls could both start one, and the pacing would not hold.
- Reconcile leases: no theorem needs them, and `OnePendingPlan` holds when they expire.
- A manifest preparation that completes before it is recorded as running: the pacing does not hold there. A process that
  crashes between the two phases of a timeout or a cancel abandons its forced completions, as a failing one does.
- Changes of manifest under a fixed pointer, and sources first tracked after the index was built: one configuration is
  fixed per watermark execution, and every event's source is tracked in it.
- Runs without a watermark manifest: their starts stage nothing and their finishes advance nothing, which is a run
  without such steps.
- Concurrent statements inside one node start: its queries and its upserts are one step, as the staged rows belong to
  one run and node. Loads, commits, discards, checks and pointer moves are separate steps.
- Lookup of an equivalent live plan before a plan is created: it only avoids a creation.
- The cleanup of terminal invocations, worker registration, lineage and timeline queries: reads, or deletes of rows that
  ended long ago.
- EventClient.StreamInvocationEvents: chunks are text cut at character boundaries, and JSON decoding is a parameter.
- EventWire.EventsReadBack: the text of a server-sent event is that of section 9.2 of the WHATWG HTML standard as the
  HTTP library writes it; event type and serialised event are single lines, as JSON text without raw control characters is.
- Integer widths: ids, failure counts and times are unbounded; the code's `i32` failure count and `i64` ids do not wrap in
  any reachable use.
- Manifest.Reconstruct: takes an object or null, as the code panics on any other value.
- Status parse and print pairs, queue-name normalisation, watermark strategy resolution, argument building: easy members.
- ControlTables.Db.ClaimNextInvocation: the rows that other claims have locked are a parameter.
