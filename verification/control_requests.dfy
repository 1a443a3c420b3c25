/** What requests leave behind over whole executions: cancel marks, missed deadlines, and how plans end. */
module ControlRequests {
  import opened Common
  import opened ControlPlane
  import opened ControlSafety
  import opened ControlTheorems
  import Retry

  /** Step `j` requests a cancel of the invocation, which exists. */
  ghost predicate CancelsAt(h: Execution, j: nat, id: nat)
    requires |h.states| == |h.steps| + 1
  {
    j < |h.steps| && h.steps[j].RequestCancel? && h.steps[j].id == id && id in h.states[j].store.invocations
  }

  /** Step `j` is the first of the first `k` steps to do so. */
  ghost predicate FirstCancelAt(h: Execution, j: nat, k: nat, id: nat)
    requires |h.states| == |h.steps| + 1
  {
    j < k && CancelsAt(h, j, id) && forall i: nat :: i < j ==> !CancelsAt(h, i, id)
  }

  lemma {:induction false} AbsentBefore(h: Execution, i: nat, k: nat, id: nat)
    requires Runs(h) && i <= k <= |h.steps| && id in h.states[i].store.invocations
    ensures id in h.states[k].store.invocations
  {
    if i < k {
      AbsentBefore(h, i, k - 1, id);
      RowAlong(h, k - 1, id);
    }
  }

  lemma CancelMarkStep(h: Execution, k: nat, id: nat)
    requires Runs(h) && k < |h.steps| && id in h.states[k + 1].store.invocations
    requires h.states[k + 1].store.invocations[id].status == Running
    ensures var after := h.states[k + 1].store.invocations[id].cancelRequestedAt;
      if id !in h.states[k].store.invocations then after == None
      else
        var before := h.states[k].store.invocations[id];
        before.status == Running &&
        after == if CancelsAt(h, k, id) && before.cancelRequestedAt.None? then Some(h.steps[k].now)
          else before.cancelRequestedAt
  {
    assert StepAt(h, k);
    if id in h.states[k].store.invocations {
      RowAlong(h, k, id);
    } else {
      NewRows(h.states[k], h.steps[k], id);
    }
  }

  /** While an invocation runs it carries the time of the first cancel request, and none if there was none. */
  lemma {:induction false} RunningCarriesFirstCancel(h: Execution, k: nat, id: nat)
    requires Runs(h) && k <= |h.steps| && id in h.states[k].store.invocations
    requires h.states[k].store.invocations[id].status == Running
    ensures var mark := h.states[k].store.invocations[id].cancelRequestedAt;
      if mark.None? then forall j: nat :: j < k ==> !CancelsAt(h, j, id)
      else exists j: nat :: FirstCancelAt(h, j, k, id) && h.steps[j].now == mark.value
  {
    if k > 0 {
      CancelMarkStep(h, k - 1, id);
      if id in h.states[k - 1].store.invocations {
        RunningCarriesFirstCancel(h, k - 1, id);
        var before := h.states[k - 1].store.invocations[id].cancelRequestedAt;
        if before.Some? {
          var j: nat :| FirstCancelAt(h, j, k - 1, id) && h.steps[j].now == before.value;
          assert FirstCancelAt(h, j, k, id);
        } else if CancelsAt(h, k - 1, id) {
          assert FirstCancelAt(h, k - 1, k, id);
        }
      } else {
        forall j: nat | j < k ensures !CancelsAt(h, j, id) {
          if CancelsAt(h, j, id) { AbsentBefore(h, j, k - 1, id); }
        }
      }
    }
  }

  /** So a running row is marked exactly when a cancel was requested. */
  lemma MarkedIffCancelled(h: Execution, k: nat, id: nat)
    requires Runs(h) && k <= |h.steps| && id in h.states[k].store.invocations
    requires h.states[k].store.invocations[id].status == Running
    ensures h.states[k].store.invocations[id].cancelRequestedAt.Some? <==>
      exists j: nat :: j < k && CancelsAt(h, j, id)
  {
    RunningCarriesFirstCancel(h, k, id);
    if h.states[k].store.invocations[id].cancelRequestedAt.Some? {
      var j: nat :| FirstCancelAt(h, j, k, id);
    }
  }

  /** A sweep ends an unclaimed running invocation exactly when its claim deadline has passed. */
  lemma SweepEndsExactlyTheLate(h: Execution, k: nat, id: nat)
    requires Runs(h) && k < |h.steps| && h.steps[k].SweepTimedOut? && id in h.states[k].store.invocations
    requires h.states[k].store.invocations[id].status == Running && h.states[k].store.invocations[id].claimedBy.None?
    ensures id in h.states[k + 1].store.invocations
    ensures var deadline := h.states[k].store.invocations[id].claimDeadlineAt;
      h.states[k + 1].store.invocations[id].status != Running <==> deadline.Some? && deadline.value < h.steps[k].now
    ensures h.states[k + 1].store.invocations[id].status != Running ==>
      Forced(id, NOT_CLAIMED) in h.states[k + 1].pending && Stored(h.states[k + 1].store.invocations[id], NOT_CLAIMED)
  {
    RowAlong(h, k, id);
    assert StepAt(h, k);
    var step := h.steps[k];
    if ClaimExpired(h.states[k].store.invocations[id], step.now) {
      assert Forced(id, NOT_CLAIMED) in TimedOut(h.states[k].store.invocations, step.localStaleAt, step.serverStaleAt,
        step.now);
    }
  }

  /** A plan that has left `Admitted` tells how its invocation ended. */
  lemma PlanEndsAsInvocation(h: Execution, k: nat, id: nat)
    requires Runs(h) && k <= |h.steps| && id in h.states[k].store.invocations
    requires h.states[k].store.invocations[id].planId.Some?
    ensures var p, status := h.states[k].store.invocations[id].planId.value, h.states[k].store.invocations[id].status;
      && p in h.states[k].store.plans
      && (h.states[k].store.plans[p].status == PlanCompleted ==> status == Succeeded)
      && (h.states[k].store.plans[p].status == PlanFailed ==> status == Failed)
      && (h.states[k].store.plans[p].status == PlanCanceled ==> status == Canceled)
      && (h.states[k].store.plans[p].status in {Admitted, PlanCompleted, PlanFailed, PlanCanceled})
  {
    AlwaysInv(h, k);
    assert LinksBack(h.states[k], id);
  }

  /** What completing an invocation closes: its own rows, and nothing else. */
  lemma CompletionCloses(st: Store, i: nat, status: Status, now: int)
    requires i in st.invocations
    ensures var after := SideEffects(st, i, status, now);
      && after.invocations == st.invocations && after.resources.Keys == st.resources.Keys
      && forall k :: k in st.resources ==>
           after.resources[k] == Resource(st.resources[k].env, st.resources[k].open && k.invocation != i)
  {
  }

  /** How it ends the plan: a success clears what failures have left; a failure or a cancel counts one more, and sets
      the next attempt after the delay of that count. No other plan changes. */
  lemma CompletionEndsPlan(st: Store, i: nat, status: Status, now: int, p: nat)
    requires i in st.invocations && p in st.plans
    ensures var plan, after := st.plans[p], SideEffects(st, i, status, now).plans;
      && after.Keys == st.plans.Keys
      && after[p] ==
        if st.invocations[i].planId != Some(p) then plan
        else if status == Succeeded then
          plan.(status := PlanCompleted, failureCount := 0, completedAt := Some(now), nextAttemptAt := None)
        else
          plan.(status := if status == Canceled then PlanCanceled else PlanFailed, completedAt := Some(now),
            failureCount := plan.failureCount + 1, nextAttemptAt := Some(now + Retry.Backoff(plan.failureCount + 1)))
  {
  }

  // ---------------------------------------------------------------------------------------------
  // One statement each

  /** The row after a sweep: an unclaimed row past its deadline fails, and a claimed one whose last heartbeat, or else
      claim, or else start, lies before the limit of its mode; no other row changes. */
  lemma SweptRow(st: Store, localStaleAt: int, serverStaleAt: int, now: int, i: nat)
    requires i in st.invocations
    ensures var row, after := st.invocations[i], Sweep(st, localStaleAt, serverStaleAt, now);
      var sign := if row.lastHeartbeatAt.Some? then row.lastHeartbeatAt.value
        else if row.claimedAt.Some? then row.claimedAt.value else row.startedAt;
      && after.plans == st.plans && after.resources == st.resources && i in after.invocations
      && after.invocations[i] ==
        if row.status != Running then row
        else if row.claimedBy.None? && row.claimDeadlineAt.Some? && row.claimDeadlineAt.value < now then
          row.(status := Failed, exitCode := Some(1), completedAt := Some(now), leaseToken := None,
            error := Some("worker did not claim invocation before startup deadline"))
        else if row.claimedBy.Some? && sign < (if row.mode == Local then localStaleAt else serverStaleAt) then
          row.(status := Failed, exitCode := Some(1), completedAt := Some(now), leaseToken := None,
            error := Some("worker heartbeat timed out"))
        else row
  {
  }

  /** When an admission has which outcome. */
  lemma OutcomeIs(st: Store, a: Admission)
    ensures AdmissionOutcome(st, a) == NotFound <==> a.plan !in st.plans
    ensures AdmissionOutcome(st, a) == NotAdmissible <==>
      a.plan in st.plans && st.plans[a.plan].status !in {Planned, Blocked}
    ensures AdmissionOutcome(st, a) == Noop <==>
      a.plan in st.plans && st.plans[a.plan].status in {Planned, Blocked} && a.replan == Select([])
    ensures AdmissionOutcome(st, a) == NotPrepared ==> !a.prepares
    ensures AdmissionOutcome(st, a) == Started ==> a.prepares
    ensures AdmissionOutcome(st, a) == IsBlocked <==>
      && a.plan in st.plans && st.plans[a.plan].status in {Planned, Blocked} && a.replan != Select([])
      && exists i, x :: x in Selected(st.plans[a.plan], a.replan) && Occupied(st, a.plan, i, x)
  {
    if a.plan in st.plans && Admissible(st.plans[a.plan].status) && a.replan != Select([]) {
      StartsIffNothingOccupied(st, a.(prepares := true));
      assert AdmissionOutcome(st, a) == IsBlocked <==> AdmissionOutcome(st, a.(prepares := true)) == IsBlocked;
    }
  }

  /** A report of a node's finish closes the node's row, and no other. */
  lemma FinishClosesRow(h: Execution, k: nat, row: ResourceKey)
    requires Runs(h) && k < |h.steps| && h.steps[k].NodeFinished? && row in h.states[k].store.resources
    ensures row in h.states[k + 1].store.resources
    ensures h.states[k + 1].store.resources[row].open <==>
      (h.states[k].store.resources[row].open &&
       row != ResourceKey(h.steps[k].report.invocation, h.steps[k].uniqueId))
  {
    assert StepAt(h, k);
  }

  /** A report of selected resources leaves a row for each, those that were not there open. */
  lemma ReportOpensRows(h: Execution, k: nat, x: string)
    requires Runs(h) && k < |h.steps| && h.steps[k].InsertSelected? && x in h.steps[k].names
    requires h.steps[k].report.invocation in h.states[k].store.invocations
    requires h.states[k].store.invocations[h.steps[k].report.invocation].env.Some?
    ensures var row := ResourceKey(h.steps[k].report.invocation, x);
      && row in h.states[k + 1].store.resources
      && h.states[k + 1].store.resources[row] == if row in h.states[k].store.resources
        then h.states[k].store.resources[row]
        else Resource(h.states[k].store.invocations[h.steps[k].report.invocation].env.value, true)
  {
    assert StepAt(h, k);
  }

  /** An accepted completion with a terminal status is stored as it is. */
  lemma AcceptedCompletionIsStored(h: Execution, k: nat)
    requires Runs(h) && k < |h.steps| && h.steps[k].CompleteByWorker? && h.steps[k].completion.status != Running
    requires Accepted(h.states[k].store, h.steps[k].id, h.steps[k].worker, h.steps[k].token)
    ensures h.steps[k].id in h.states[k + 1].store.invocations
    ensures Stored(h.states[k + 1].store.invocations[h.steps[k].id], h.steps[k].completion)
    ensures h.states[k + 1].store.invocations[h.steps[k].id].completedAt == Some(h.steps[k].now)
  {
    assert StepAt(h, k);
  }

  /** The first conflict of a replanned plan is the least invocation that occupies a resource it then selects. */
  lemma FirstConflictOccupies(st: Store, a: Admission)
    requires a.plan in st.plans && a.replan != Select([]) && IsFirstConflict(st, a)
    ensures exists x :: x in Selected(st.plans[a.plan], a.replan) && Occupied(st, a.plan, a.blocker, x)
    ensures forall i, x :: x in Selected(st.plans[a.plan], a.replan) && Occupied(st, a.plan, i, x) ==> a.blocker <= i
  {
    var replanned := ReplannedStore(st, a);
    assert replanned.plans[a.plan].selected == Selected(st.plans[a.plan], a.replan);
    ConflictsIff(replanned, a.plan, a.blocker);
    var x :| x in Selected(st.plans[a.plan], a.replan) && Occupied(replanned, a.plan, a.blocker, x);
    OccupiedAfterReplan(st, a, a.blocker, x);
    forall i, y | y in Selected(st.plans[a.plan], a.replan) && Occupied(st, a.plan, i, y) ensures a.blocker <= i {
      OccupiedAfterReplan(st, a, i, y);
      ConflictsIff(replanned, a.plan, i);
    }
  }

  /** A blocked plan names that invocation. */
  lemma BlockedByLeast(h: Execution, k: nat)
    requires Runs(h) && k < |h.steps| && h.steps[k].AdmitPlan?
    requires AdmissionOutcome(h.states[k].store, h.steps[k].admission) == IsBlocked
    ensures var a, st, after := h.steps[k].admission, h.states[k].store, h.states[k + 1].store;
      && a.plan in st.plans && a.plan in after.plans
      && after.plans[a.plan].status == Blocked && after.plans[a.plan].blockedBy == Some(a.blocker)
      && (exists x :: x in Selected(st.plans[a.plan], a.replan) && Occupied(st, a.plan, a.blocker, x))
      && forall i, x :: x in Selected(st.plans[a.plan], a.replan) && Occupied(st, a.plan, i, x) ==> a.blocker <= i
  {
    assert StepAt(h, k);
    FirstConflictOccupies(h.states[k].store, h.steps[k].admission);
  }

  /** How often a step hands a forced completion on: a cancel of an unclaimed invocation that runs or was canceled, and
      a sweep for each row it times out. */
  function HandsOn(st: Store, step: Step, f: Forced): nat {
    match step
    case RequestCancel(id, _) =>
      if id != f.invocation || id !in st.invocations || st.invocations[id].claimedBy.Some? then 0
      else
        var row := st.invocations[id];
        if row.status == Running && f.completion == Completion(Canceled, 130, Some("invocation canceled")) then 1
        else if row.status == Canceled && row.exitCode.Some? &&
          f.completion == Completion(Canceled, row.exitCode.value, row.error) then 1
        else 0
    case SweepTimedOut(l, s, now) => if f in TimedOut(st.invocations, l, s, now) then 1 else 0
    case _ => 0
  }

  /** Conservation: what is handed on is forced or abandoned, each once. */
  lemma PendingCounts(h: Execution, k: nat, f: Forced)
    requires Runs(h) && k < |h.steps|
    ensures h.states[k + 1].pending[f] == h.states[k].pending[f] + HandsOn(h.states[k].store, h.steps[k], f) -
      if h.steps[k] == Abandon(f) || (h.steps[k].Force? && h.steps[k].forced == f) then 1 else 0
  {
    assert StepAt(h, k);
  }

  /** A report is under way from the read that admits it until it ends. */
  lemma ReportsCount(h: Execution, k: nat, r: Report)
    requires Runs(h) && k < |h.steps|
    ensures h.steps[k] == BeginReport(r) && ClaimMatches(h.states[k].store, r) ==>
      h.states[k + 1].reporting[r] == h.states[k].reporting[r] + 1
    ensures h.steps[k] == EndReport(r) ==> h.states[k].reporting[r] == h.states[k + 1].reporting[r] + 1
    ensures h.steps[k] != BeginReport(r) && h.steps[k] != EndReport(r) ==>
      h.states[k + 1].reporting[r] == h.states[k].reporting[r]
  {
    assert StepAt(h, k);
  }
}
