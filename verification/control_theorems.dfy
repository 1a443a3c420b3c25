/** What holds over whole executions of the control plane, however its transactions interleave. */
module ControlTheorems {
  import opened Common
  import opened ControlPlane
  import opened ControlSafety
  import Retry

  lemma {:induction false} AlwaysInv(h: Execution, k: nat)
    requires Runs(h) && k <= |h.steps|
    ensures Inv(h.states[k])
  {
    if k > 0 {
      AlwaysInv(h, k - 1);
      assert StepAt(h, k - 1);
      InvKept(h.states[k - 1], h.steps[k - 1]);
    }
  }

  // ---------------------------------------------------------------------------------------------
  // Invocations

  lemma RowAlong(h: Execution, k: nat, id: nat)
    requires Runs(h) && k < |h.steps| && id in h.states[k].store.invocations
    ensures id in h.states[k + 1].store.invocations
    ensures Enabled(h.states[k], h.steps[k])
    ensures h.states[k + 1].store.invocations[id] == RowAfter(h.states[k], h.steps[k], id)
    ensures Evolves(h.states[k].store.invocations[id], h.states[k + 1].store.invocations[id])
  {
    AlwaysInv(h, k);
    assert StepAt(h, k);
    ApplyRow(h.states[k], h.steps[k], id);
    RowEvolves(h.states[k], h.steps[k], id);
  }

  ghost predicate SameOutcome(a: Invocation, b: Invocation) {
    a.status == b.status && a.exitCode == b.exitCode && a.error == b.error && a.completedAt == b.completedAt
  }

  /** Once an invocation has ended, nothing changes how, with what, or when it ended. */
  lemma {:induction false} EndedStaysEnded(h: Execution, i: nat, k: nat, id: nat)
    requires Runs(h) && i <= k <= |h.steps| && id in h.states[i].store.invocations
    requires h.states[i].store.invocations[id].status != Running
    ensures id in h.states[k].store.invocations
    ensures SameOutcome(h.states[i].store.invocations[id], h.states[k].store.invocations[id])
  {
    if i < k {
      EndedStaysEnded(h, i, k - 1, id);
      RowAlong(h, k - 1, id);
    }
  }

  /** The row carries this claim. */
  ghost predicate ClaimedUnder(st: State, id: nat, worker: string, token: nat) {
    id in st.store.invocations && st.store.invocations[id].claimedBy == Some(worker) &&
    st.store.invocations[id].leaseToken == Some(token)
  }

  lemma {:induction false} ClaimedForEver(h: Execution, i: nat, k: nat, id: nat)
    requires Runs(h) && i <= k <= |h.steps| && id in h.states[i].store.invocations
    requires h.states[i].store.invocations[id].claimedBy.Some?
    ensures id in h.states[k].store.invocations
    ensures h.states[k].store.invocations[id].claimedBy == h.states[i].store.invocations[id].claimedBy
  {
    if i < k {
      ClaimedForEver(h, i, k - 1, id);
      RowAlong(h, k - 1, id);
    }
  }

  /** In every interleaving an invocation is claimed at most once. */
  lemma ClaimedAtMostOnce(h: Execution, i: nat, j: nat)
    requires Runs(h) && i < |h.steps| && j < |h.steps|
    requires h.steps[i].Claim? && h.steps[j].Claim? && h.steps[i].id == h.steps[j].id
    ensures i == j
  {
    var id := h.steps[i].id;
    var first, second := if i < j then i else j, if i < j then j else i;
    assert StepAt(h, first) && StepAt(h, second);
    if first < second {
      RowAlong(h, first, id);
      ClaimedForEver(h, first + 1, second, id);
      assert false;
    }
  }

  /** A row that carries a claim got it from a claim step, and has been held under it ever since. */
  lemma {:induction false} ClaimHasStep(h: Execution, k: nat, id: nat, worker: string, token: nat) returns (c: nat)
    requires Runs(h) && k <= |h.steps| && ClaimedUnder(h.states[k], id, worker, token)
    ensures c < k && h.steps[c].Claim? && h.steps[c].id == id && h.steps[c].worker == worker &&
      h.steps[c].token == token
    ensures forall m :: c < m <= k ==> ClaimedUnder(h.states[m], id, worker, token)
  {
    if ClaimedUnder(h.states[k - 1], id, worker, token) {
      c := ClaimHasStep(h, k - 1, id, worker, token);
    } else {
      c := k - 1;
      ClaimEntersAt(h, c, id, worker, token);
    }
  }

  lemma ClaimEntersAt(h: Execution, c: nat, id: nat, worker: string, token: nat)
    requires Runs(h) && c < |h.steps|
    requires !ClaimedUnder(h.states[c], id, worker, token) && ClaimedUnder(h.states[c + 1], id, worker, token)
    ensures h.steps[c].Claim? && h.steps[c].id == id && h.steps[c].worker == worker && h.steps[c].token == token
  {
    AlwaysInv(h, c);
    assert StepAt(h, c);
    if id in h.states[c].store.invocations {
      ApplyRow(h.states[c], h.steps[c], id);
      ClaimEntersByClaim(h.states[c], h.steps[c], id, worker, token);
    } else {
      NewRows(h.states[c], h.steps[c], id);
    }
  }

  lemma ClaimEntersByClaim(st: State, step: Step, id: nat, worker: string, token: nat)
    requires Rows(st) && PendingAgrees(st) && Enabled(st, step) && id in st.store.invocations
    requires !ClaimedUnder(st, id, worker, token)
    requires RowAfter(st, step, id).claimedBy == Some(worker) && RowAfter(st, step, id).leaseToken == Some(token)
    ensures step.Claim? && step.id == id && step.worker == worker && step.token == token
  {
  }

  /** The worker calls that carry a token and pass the fence. */
  ghost predicate AcceptedCall(st: State, step: Step, id: nat, worker: string, token: nat) {
    && match step
       case Heartbeat(i, w, t, _) => i == id && w == worker && t == token && Accepted(st.store, id, worker, token)
       case CompleteByWorker(i, w, t, _, _) => i == id && w == worker && t == token &&
         Accepted(st.store, id, worker, token)
       case BeginReport(report) => report == Report(id, worker, token) && ClaimMatches(st.store, report)
       case _ => false
  }

  /**
   * Fencing: an accepted worker call comes from the one claim of its invocation, by the same worker and with
   * the same token, and the invocation has run under that claim all the time between.
   */
  lemma Fencing(h: Execution, k: nat, id: nat, worker: string, token: nat) returns (c: nat)
    requires Runs(h) && k < |h.steps| && AcceptedCall(h.states[k], h.steps[k], id, worker, token)
    ensures c < k && h.steps[c].Claim? && h.steps[c].id == id && h.steps[c].worker == worker &&
      h.steps[c].token == token
    ensures forall j :: 0 <= j < |h.steps| && h.steps[j].Claim? && h.steps[j].id == id ==> j == c
    ensures forall m :: c < m <= k ==> Accepted(h.states[m].store, id, worker, token)
  {
    c := ClaimHasStep(h, k, id, worker, token);
    AlwaysInv(h, k);
    assert Accepted(h.states[k].store, id, worker, token);
    forall j | 0 <= j < |h.steps| && h.steps[j].Claim? && h.steps[j].id == id ensures j == c {
      ClaimedAtMostOnce(h, j, c);
    }
    forall m | c < m <= k ensures Accepted(h.states[m].store, id, worker, token) {
      assert ClaimedUnder(h.states[m], id, worker, token);
      if h.states[m].store.invocations[id].status != Running {
        EndedStaysEnded(h, m, k, id);
        assert false;
      }
    }
  }

  /** A forced completion under way always repeats what the row stores, so forcing it changes no outcome. */
  lemma ForcedAgrees(h: Execution, k: nat, f: Forced)
    requires Runs(h) && k <= |h.steps| && f in h.states[k].pending
    ensures f.invocation in h.states[k].store.invocations
    ensures Stored(h.states[k].store.invocations[f.invocation], f.completion)
  {
    AlwaysInv(h, k);
  }

  // ---------------------------------------------------------------------------------------------
  // Time-outs

  /** The step is a sign of life of the invocation's worker: its claim, or a heartbeat that passes the fence. */
  predicate IsSign(st: State, step: Step, id: nat) {
    || (step.Claim? && step.id == id)
    || (step.Heartbeat? && step.id == id && Accepted(st.store, id, step.worker, step.token))
  }

  /** The row is claimed, and records this time as the last sign of its worker. */
  ghost predicate LastSignedAt(st: State, id: nat, at: int) {
    id in st.store.invocations && st.store.invocations[id].claimedBy.Some? &&
    st.store.invocations[id].lastHeartbeatAt == Some(at)
  }

  lemma SignRecorded(h: Execution, k: nat, id: nat, at: int)
    requires Runs(h) && k < |h.steps|
    requires if IsSign(h.states[k], h.steps[k], id) then h.steps[k].now == at else LastSignedAt(h.states[k], id, at)
    ensures LastSignedAt(h.states[k + 1], id, at)
  {
    assert StepAt(h, k);
    RowAlong(h, k, id);
  }

  lemma {:induction false} SignStays(h: Execution, j: nat, k: nat, id: nat)
    requires Runs(h) && j < k <= |h.steps| && IsSign(h.states[j], h.steps[j], id)
    requires forall i :: j < i < k ==> !IsSign(h.states[i], h.steps[i], id)
    ensures LastSignedAt(h.states[k], id, h.steps[j].now)
  {
    if j < k - 1 { SignStays(h, j, k - 1, id); }
    SignRecorded(h, k - 1, id, h.steps[j].now);
  }

  /** The oldest sign of life that still counts. */
  function Limit(mode: Mode, localStaleAt: int, serverStaleAt: int): int {
    match mode
    case Local => localStaleAt
    case Server => serverStaleAt
  }

  /**
   * A sweep ends a claimed running invocation exactly when the last sign of its worker, at step `j`, lies before the
   * limit of its mode: a worker that keeps giving signs in time is never timed out, a silent one always is.
   */
  lemma SweepEndsExactlyTheSilent(h: Execution, j: nat, k: nat, id: nat)
    requires Runs(h) && j < k < |h.steps| && IsSign(h.states[j], h.steps[j], id)
    requires forall i :: j < i < k ==> !IsSign(h.states[i], h.steps[i], id)
    requires h.steps[k].SweepTimedOut? && id in h.states[k].store.invocations
    requires h.states[k].store.invocations[id].status == Running
    ensures id in h.states[k + 1].store.invocations
    ensures h.states[k + 1].store.invocations[id].status != Running <==>
      h.steps[j].now < Limit(h.states[k].store.invocations[id].mode, h.steps[k].localStaleAt, h.steps[k].serverStaleAt)
    ensures h.states[k + 1].store.invocations[id].status != Running ==>
      Forced(id, HEARTBEAT_LOST) in h.states[k + 1].pending &&
      Stored(h.states[k + 1].store.invocations[id], HEARTBEAT_LOST)
  {
    SignStays(h, j, k, id);
    RowAlong(h, k, id);
    assert StepAt(h, k);
    var inv, step := h.states[k].store.invocations[id], h.steps[k];
    if HeartbeatExpired(inv, step.localStaleAt, step.serverStaleAt) {
      assert Forced(id, HEARTBEAT_LOST) in TimedOut(h.states[k].store.invocations, step.localStaleAt,
        step.serverStaleAt, step.now);
    }
  }

  // ---------------------------------------------------------------------------------------------
  // Plans

  /** At no time do two executing plans of one environment share a resource. */
  lemma ResourceExclusion(h: Execution, k: nat, p: nat, q: nat, resource: string)
    requires Runs(h) && k <= |h.steps|
    requires Executing(h.states[k].store, p) && Executing(h.states[k].store, q)
    requires var plans := h.states[k].store.plans;
      plans[p].env == plans[q].env && resource in plans[p].selected && resource in plans[q].selected
    ensures p == q
  {
    AlwaysInv(h, k);
    assert Overlap(h.states[k].store.plans[p].selected, h.states[k].store.plans[q].selected);
  }

  lemma FinishedPlanStep(st: State, step: Step, p: nat)
    requires Inv(st) && Enabled(st, step) && p in st.store.plans && Terminal(st.store.plans[p].status)
    ensures p in Apply(st, step).store.plans && Apply(st, step).store.plans[p].status == st.store.plans[p].status
  {
    if step.CompleteByWorker? || step.Force? {
      FinishedPlanCompletion(st, step, p);
    } else if step.AdmitPlan? {
      if AdmissionOutcome(st.store, step.admission) == Started {
        StartedAdmission(st, step);
      } else {
        UnstartedAdmission(st, step);
      }
    } else if step.CreatePlan? || step.SupersedeOthers? {
      PlanStepsOnUnlinked(st, step);
    } else if OnReport(step) {
      ResourceStepsOnResources(st, step);
    } else {
      RowStepsAreQuiet(st, step);
    }
  }

  lemma FinishedPlanCompletion(st: State, step: Step, p: nat)
    requires Inv(st) && Enabled(st, step) && p in st.store.plans && Terminal(st.store.plans[p].status)
    requires step.CompleteByWorker? || step.Force?
    ensures p in Apply(st, step).store.plans && Apply(st, step).store.plans[p].status == st.store.plans[p].status
  {
    var st' := Apply(st, step);
    match step {
      case CompleteByWorker(id, worker, token, c, _) =>
        if Accepted(st.store, id, worker, token) && c.status != Running {
          WorkerCompletionFinishes(st, step);
          FinishKeepsFinishedPlan(st, st', id, c.status, p);
        }
      case Force(f, _) =>
        ForcedCompletionFinishes(st, step);
        FinishKeepsFinishedPlan(st, st', f.invocation, f.completion.status, p);
    }
  }

  lemma FinishKeepsFinishedPlan(st: State, st': State, i: nat, status: Status, p: nat)
    requires Linked(st) && Finishes(st, st', i, status) && p in st.store.plans && Terminal(st.store.plans[p].status)
    ensures st'.store.plans[p].status == st.store.plans[p].status
  {
    assert LinksBack(st, i);
  }

  /** Completed, failed, canceled and superseded plans keep their status for ever. */
  lemma {:induction false} FinishedPlanStays(h: Execution, i: nat, k: nat, p: nat)
    requires Runs(h) && i <= k <= |h.steps| && p in h.states[i].store.plans
    requires h.states[i].store.plans[p].status !in {Planned, Blocked, Admitted}
    ensures p in h.states[k].store.plans
    ensures h.states[k].store.plans[p].status == h.states[i].store.plans[p].status
  {
    if i < k {
      FinishedPlanStays(h, i, k - 1, p);
      AlwaysInv(h, k - 1);
      assert StepAt(h, k - 1);
      FinishedPlanStep(h.states[k - 1], h.steps[k - 1], p);
    }
  }

  /** No reconcile call of the environment is between creating a plan and superseding the others. */
  ghost predicate NoCallBetween(st: State, env: nat) {
    forall p :: p in st.superseding && p in st.store.plans ==> st.store.plans[p].env != env
  }

  /**
   * However many reconcile calls interleave: whenever none is between its create and its supersede, an
   * environment has at most one planned or blocked plan. No lease takes part in this.
   */
  lemma OnePendingPlan(h: Execution, k: nat, p: nat, q: nat)
    requires Runs(h) && k <= |h.steps|
    requires IsPending(h.states[k].store, p) && IsPending(h.states[k].store, q)
    requires h.states[k].store.plans[p].env == h.states[k].store.plans[q].env
    requires NoCallBetween(h.states[k], h.states[k].store.plans[p].env)
    ensures p == q
  {
    AlwaysInv(h, k);
  }

  // ---------------------------------------------------------------------------------------------
  // Forcing again

  /** What is forced is a failure or a cancel, never a success. */
  lemma {:induction false} ForcedNeverSucceeds(h: Execution, k: nat, f: Forced)
    requires Runs(h) && k <= |h.steps| && f in h.states[k].pending
    ensures f.completion.status == Failed || f.completion.status == Canceled
  {
    if f in h.states[k - 1].pending {
      ForcedNeverSucceeds(h, k - 1, f);
    } else {
      assert StepAt(h, k - 1);
    }
  }

  /**
   * Forcing a completion a second time, at any time: invocation and rows never change. The plan stays exactly when
   * there is none, or the completion is a success forced at the same instant; any other success only moves its
   * completion time, and a failure or a cancel is counted once more.
   */
  lemma ForcedAgainIff(st: Store, f: Forced, now: int, later: int)
    requires f.invocation in st.invocations
    ensures var once := ForceComplete(st, f, now);
      var again, planId := ForceComplete(once, f, later), st.invocations[f.invocation].planId;
      && again.invocations == once.invocations && again.resources == once.resources
      && (again == once <==>
            planId.None? || planId.value !in st.plans || (f.completion.status == Succeeded && later == now))
      && (planId.Some? && planId.value in st.plans ==>
            again.plans ==
              once.plans[planId.value := AgainForced(once.plans[planId.value], f.completion.status, later)])
  {
    var once := ForceComplete(st, f, now);
    var again := ForceComplete(once, f, later);
    var planId := st.invocations[f.invocation].planId;
    assert again.invocations == once.invocations && again.resources == once.resources;
    if planId.Some? && planId.value in st.plans {
      assert once.plans[planId.value] == CompletePlan(st.plans[planId.value], f.completion.status, now);
      assert again.plans ==
        once.plans[planId.value := CompletePlan(once.plans[planId.value], f.completion.status, later)];
      assert once.plans[planId.value].completedAt == Some(now) && again.plans[planId.value].completedAt == Some(later);
      if f.completion.status == Succeeded && later == now {
        assert again.plans == once.plans;
      }
    }
  }

  /** A plan that ended with the status already: what ending it again changes. */
  function AgainForced(plan: Plan, status: Status, later: int): Plan {
    if status == Succeeded then plan.(completedAt := Some(later))
    else
      var failures := plan.failureCount + 1;
      plan.(failureCount := failures, completedAt := Some(later),
        nextAttemptAt := Some(later + Retry.Backoff(failures)))
  }
}
