/** What one step may do to an open resource row, to a plan, and to whether their invocation is still active. */
module ControlRowSteps {
  import opened Common
  import opened ControlPlane
  import opened ControlSafety

  /** The invocation awaits a forced completion. */
  ghost predicate Settling(st: State, i: nat) {
    exists f :: f in st.pending && f.invocation == i
  }

  ghost predicate Active(st: State, i: nat) {
    i in st.store.invocations && (st.store.invocations[i].status == Running || Settling(st, i))
  }

  /** The step completes the invocation: by its worker, or by force. */
  ghost predicate Completes(st: State, step: Step, i: nat) {
    || (step.Force? && step.forced.invocation == i)
    || (step.CompleteByWorker? && step.id == i && step.completion.status != Running &&
        Accepted(st.store, i, step.worker, step.token))
  }

  /** The step abandons the last forced completion that the invocation awaits. */
  ghost predicate Abandons(st: State, step: Step, i: nat) {
    step.Abandon? && step.forced.invocation == i &&
    forall f :: f in st.pending - multiset{step.forced} ==> f.invocation != i
  }

  /** The step cancels, once more, an invocation that a cancel has ended before any worker claimed it. */
  ghost predicate CancelsAgain(st: State, step: Step, i: nat) {
    && step.RequestCancel? && step.id == i && i in st.store.invocations
    && st.store.invocations[i].status == Canceled && st.store.invocations[i].claimedBy.None?
  }

  /** An active invocation stays active until it is completed or its last forced completion abandoned. */
  lemma ActiveStep(st: State, step: Step, i: nat)
    requires Enabled(st, step) && Active(st, i) && !Completes(st, step, i)
    ensures Active(Apply(st, step), i) || Abandons(st, step, i)
  {
    var st' := Apply(st, step);
    ApplyRow(st, step, i);
    if st.store.invocations[i].status == Running {
      StopHandsOn(st, step, i);
    } else if !step.Abandon? {
      var f :| f in st.pending && f.invocation == i;
      assert f in st'.pending;
    }
  }

  /** A step that stops a running invocation, without completing it, hands it to a forced completion. */
  lemma StopHandsOn(st: State, step: Step, i: nat)
    requires Enabled(st, step) && !Completes(st, step, i)
    requires i in st.store.invocations && st.store.invocations[i].status == Running
    ensures RowAfter(st, step, i).status == Running || Settling(Apply(st, step), i)
  {
    var st' := Apply(st, step);
    match step
    case RequestCancel(id, now) =>
      var f := Forced(id, CANCELED);
      if i == id && st.store.invocations[i].claimedBy.None? { assert f in st'.pending && f.invocation == i; }
    case SweepTimedOut(l, s, now) =>
      var f := Forced(i, if ClaimExpired(st.store.invocations[i], now) then NOT_CLAIMED else HEARTBEAT_LOST);
      if f in TimedOut(st.store.invocations, l, s, now) { assert f in st'.pending; }
    case _ =>
  }

  /** An invocation that has ended and awaits nothing awaits nothing after any step, unless it is cancelled again. */
  lemma InactiveStep(st: State, step: Step, i: nat)
    requires Rows(st) && PendingAgrees(st) && Enabled(st, step) && i in st.store.invocations && !Active(st, i)
    ensures i in Apply(st, step).store.invocations
    ensures Active(Apply(st, step), i) <==> CancelsAgain(st, step, i)
  {
    var st' := Apply(st, step);
    ApplyRow(st, step, i);
    RowEvolves(st, step, i);
    if CancelsAgain(st, step, i) {
      var row := st.store.invocations[i];
      var f := Forced(i, Completion(Canceled, row.exitCode.value, row.error));
      assert f in st'.pending && f.invocation == i;
    } else {
      forall f | f in st'.pending ensures f.invocation != i {}
    }
  }

  /** Nothing completes an invocation that is not active. */
  lemma InactiveIsUncompleted(st: State, step: Step, i: nat)
    requires PendingAgrees(st) && Enabled(st, step) && !Active(st, i)
    ensures !Completes(st, step, i)
  {
  }

  lemma AbandonStep(st: State, step: Step, i: nat)
    requires PendingAgrees(st) && Enabled(st, step) && Abandons(st, step, i)
    ensures Apply(st, step).store == st.store && i in st.store.invocations && !Active(Apply(st, step), i)
  {
  }

  /** Completing an invocation closes its rows. */
  lemma CompletedRowsClose(st: State, step: Step, row: ResourceKey)
    requires PendingAgrees(st) && Enabled(st, step) && Completes(st, step, row.invocation)
    ensures row in Apply(st, step).store.resources ==> !Apply(st, step).store.resources[row].open
  {
    if step.Force? {
      ForcedCompletionFinishes(st, step);
    } else {
      WorkerCompletionFinishes(st, step);
    }
  }

  /** Completing its invocation ends the plan. */
  lemma CompletedPlanEnds(st: State, step: Step, p: nat)
    requires PendingAgrees(st) && Enabled(st, step)
    requires p in st.store.plans && st.store.plans[p].admittedInvocation.Some?
    requires var i := st.store.plans[p].admittedInvocation.value;
      Completes(st, step, i) && i in st.store.invocations && st.store.invocations[i].planId == Some(p)
    ensures p in Apply(st, step).store.plans && Terminal(Apply(st, step).store.plans[p].status)
  {
    if step.Force? {
      ForcedCompletionFinishes(st, step);
    } else {
      WorkerCompletionFinishes(st, step);
    }
  }

  /** The step records that the row's node has finished. */
  predicate IsFinishOf(step: Step, row: ResourceKey) {
    step.NodeFinished? && ResourceKey(step.report.invocation, step.uniqueId) == row
  }

  /** Nothing but its completion closes an open row, except a finish of its own node. */
  lemma OpenRowStep(st: State, step: Step, row: ResourceKey)
    requires Enabled(st, step) && row in st.store.resources && st.store.resources[row].open
    requires !Completes(st, step, row.invocation)
    requires !IsFinishOf(step, row)
    ensures row in Apply(st, step).store.resources && Apply(st, step).store.resources[row].open
  {
  }

  /** Nothing but its completion moves an admitted plan. */
  lemma AdmittedPlanStep(st: State, step: Step, p: nat)
    requires Inv(st) && Enabled(st, step) && p in st.store.plans && st.store.plans[p].status == Admitted
    requires st.store.plans[p].admittedInvocation.Some? &&
      !Completes(st, step, st.store.plans[p].admittedInvocation.value)
    ensures p in Apply(st, step).store.plans && Apply(st, step).store.plans[p] == st.store.plans[p]
  {
    if step.AdmitPlan? {
      if AdmissionOutcome(st.store, step.admission) == Started {
        StartedAdmission(st, step);
      } else {
        UnstartedAdmission(st, step);
      }
    } else if step.CreatePlan? || step.SupersedeOthers? {
      PlanStepsOnUnlinked(st, step);
    } else if step.CompleteByWorker? || step.Force? {
      OtherPlanStays(st, step, p);
    } else if OnReport(step) {
      ResourceStepsOnResources(st, step);
    } else {
      RowStepsAreQuiet(st, step);
    }
  }

  lemma OtherPlanStays(st: State, step: Step, p: nat)
    requires PendingAgrees(st) && Linked(st) && Enabled(st, step)
    requires p in st.store.plans && st.store.plans[p].admittedInvocation.Some?
    requires (step.CompleteByWorker? || step.Force?) &&
      !Completes(st, step, st.store.plans[p].admittedInvocation.value)
    ensures p in Apply(st, step).store.plans && Apply(st, step).store.plans[p] == st.store.plans[p]
  {
    if step.Force? {
      assert LinksBack(st, step.forced.invocation);
      ForcedCompletionFinishes(st, step);
    } else if Completes(st, step, step.id) {
      assert LinksBack(st, step.id);
      WorkerCompletionFinishes(st, step);
    }
  }
}
