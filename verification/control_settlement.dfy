/**
 * Whether an invocation runs or awaits its forced completion, over whole executions. Only two things end that: a
 * completion, and a caller that abandons the last forced completion.
 */
module ControlSettlement {
  import opened Common
  import opened ControlPlane
  import opened ControlSafety
  import opened ControlTheorems
  import opened ControlRowSteps

  /** Step `a` abandoned the last forced completion of the invocation, and no cancel has handed it on since. */
  ghost predicate AbandonedAt(h: Execution, a: nat, k: nat, id: nat)
    requires |h.states| == |h.steps| + 1 && k <= |h.steps|
  {
    a < k && Abandons(h.states[a], h.steps[a], id) &&
    forall m :: a < m < k ==> !CancelsAgain(h.states[m], h.steps[m], id)
  }

  ghost predicate Abandoned(h: Execution, k: nat, id: nat)
    requires |h.states| == |h.steps| + 1 && k <= |h.steps|
  {
    exists a: nat :: AbandonedAt(h, a, k, id)
  }

  /** No step from `i` on, before `k`, completes the invocation. */
  ghost predicate Uncompleted(h: Execution, i: nat, k: nat, id: nat)
    requires |h.states| == |h.steps| + 1 && k <= |h.steps|
  {
    forall m :: i <= m < k ==> !Completes(h.states[m], h.steps[m], id)
  }

  lemma ActiveAlong(h: Execution, k: nat, id: nat)
    requires Runs(h) && k < |h.steps| && Active(h.states[k], id) && !Completes(h.states[k], h.steps[k], id)
    ensures Active(h.states[k + 1], id) || Abandons(h.states[k], h.steps[k], id)
  {
    assert StepAt(h, k);
    ActiveStep(h.states[k], h.steps[k], id);
  }

  lemma InactiveAlong(h: Execution, k: nat, id: nat)
    requires Runs(h) && k < |h.steps| && id in h.states[k].store.invocations && !Active(h.states[k], id)
    ensures id in h.states[k + 1].store.invocations
    ensures Active(h.states[k + 1], id) <==> CancelsAgain(h.states[k], h.steps[k], id)
  {
    AlwaysInv(h, k);
    assert StepAt(h, k);
    InactiveStep(h.states[k], h.steps[k], id);
  }

  lemma AbandonAlong(h: Execution, a: nat, id: nat)
    requires Runs(h) && a < |h.steps| && Abandons(h.states[a], h.steps[a], id)
    ensures h.states[a + 1].store == h.states[a].store
    ensures id in h.states[a].store.invocations && !Active(h.states[a + 1], id)
  {
    AlwaysInv(h, a);
    assert StepAt(h, a);
    AbandonStep(h.states[a], h.steps[a], id);
  }

  lemma {:induction false} AbandonedIsInactive(h: Execution, a: nat, k: nat, id: nat)
    requires Runs(h) && k <= |h.steps| && AbandonedAt(h, a, k, id)
    ensures id in h.states[k].store.invocations && !Active(h.states[k], id)
  {
    if a < k - 1 {
      AbandonedIsInactive(h, a, k - 1, id);
      InactiveAlong(h, k - 1, id);
    } else {
      AbandonAlong(h, a, id);
    }
  }

  lemma {:induction false} ActiveOrAbandoned(h: Execution, i: nat, k: nat, id: nat)
    requires Runs(h) && i <= k <= |h.steps| && Active(h.states[i], id) && Uncompleted(h, i, k, id)
    ensures Active(h.states[k], id) || Abandoned(h, k, id)
  {
    if i < k {
      ActiveOrAbandoned(h, i, k - 1, id);
      if Active(h.states[k - 1], id) {
        ActiveAlong(h, k - 1, id);
        if Abandons(h.states[k - 1], h.steps[k - 1], id) { assert AbandonedAt(h, k - 1, k, id); }
      } else {
        var a: nat :| AbandonedAt(h, a, k - 1, id);
        AbandonedIsInactive(h, a, k - 1, id);
        InactiveAlong(h, k - 1, id);
        if !CancelsAgain(h.states[k - 1], h.steps[k - 1], id) { assert AbandonedAt(h, a, k, id); }
      }
    }
  }

  /** An invocation that nothing has completed since it was active is active exactly when it was not abandoned. */
  lemma ActiveIffNotAbandoned(h: Execution, i: nat, k: nat, id: nat)
    requires Runs(h) && i <= k <= |h.steps| && Active(h.states[i], id) && Uncompleted(h, i, k, id)
    ensures Active(h.states[k], id) <==> !Abandoned(h, k, id)
  {
    ActiveOrAbandoned(h, i, k, id);
    if Abandoned(h, k, id) {
      var a: nat :| AbandonedAt(h, a, k, id);
      AbandonedIsInactive(h, a, k, id);
    }
  }

  // ---------------------------------------------------------------------------------------------
  // Plans

  /** Every invocation has one step that created it, running. */
  lemma {:induction false} InvocationHasStart(h: Execution, k: nat, id: nat) returns (c: nat)
    requires Runs(h) && k <= |h.steps| && id in h.states[k].store.invocations
    ensures 0 < c <= k && id in h.states[c].store.invocations && h.states[c].store.invocations[id].status == Running
  {
    if id in h.states[k - 1].store.invocations {
      c := InvocationHasStart(h, k - 1, id);
    } else {
      c := k;
      assert StepAt(h, k - 1);
      NewRows(h.states[k - 1], h.steps[k - 1], id);
    }
  }

  lemma {:induction false} PlanIdStays(h: Execution, i: nat, k: nat, id: nat)
    requires Runs(h) && i <= k <= |h.steps| && id in h.states[i].store.invocations
    ensures id in h.states[k].store.invocations
    ensures h.states[k].store.invocations[id].planId == h.states[i].store.invocations[id].planId
  {
    if i < k {
      PlanIdStays(h, i, k - 1, id);
      RowAlong(h, k - 1, id);
    }
  }

  /** While a plan is admitted, nothing has completed its invocation. */
  lemma AdmittedIsUncompleted(h: Execution, c: nat, k: nat, p: nat, id: nat)
    requires Runs(h) && c <= k <= |h.steps| && id in h.states[c].store.invocations && p in h.states[k].store.plans
    requires h.states[k].store.plans[p].status == Admitted && h.states[k].store.plans[p].admittedInvocation == Some(id)
    ensures Uncompleted(h, c, k, id)
  {
    AlwaysInv(h, k);
    assert LinksForward(h.states[k], p);
    forall m | c <= m < k ensures !Completes(h.states[m], h.steps[m], id) {
      if Completes(h.states[m], h.steps[m], id) {
        PlanIdStays(h, c, m, id);
        PlanIdStays(h, m, k, id);
        AlwaysInv(h, m);
        assert StepAt(h, m) && LinksBack(h.states[m], id);
        CompletedPlanEnds(h.states[m], h.steps[m], p);
        FinishedPlanStays(h, m + 1, k, p);
        assert false;
      }
    }
  }

  /**
   * An admitted plan's invocation is running or awaits its forced completion, if and only if no caller has abandoned
   * the last forced completion of it.
   */
  lemma AdmittedIsActiveIff(h: Execution, k: nat, p: nat)
    requires Runs(h) && k <= |h.steps|
    requires p in h.states[k].store.plans && h.states[k].store.plans[p].status == Admitted
    ensures h.states[k].store.plans[p].admittedInvocation.Some?
    ensures var id := h.states[k].store.plans[p].admittedInvocation.value;
      Active(h.states[k], id) <==> !Abandoned(h, k, id)
  {
    AlwaysInv(h, k);
    assert LinksForward(h.states[k], p);
    var id := h.states[k].store.plans[p].admittedInvocation.value;
    var c := InvocationHasStart(h, k, id);
    AdmittedIsUncompleted(h, c, k, p, id);
    ActiveIffNotAbandoned(h, c, k, id);
  }

  lemma AdmittedPlanAlong(h: Execution, k: nat, p: nat, id: nat)
    requires Runs(h) && k < |h.steps| && !Active(h.states[k], id)
    requires p in h.states[k].store.plans && h.states[k].store.plans[p].status == Admitted
    requires h.states[k].store.plans[p].admittedInvocation == Some(id)
    ensures p in h.states[k + 1].store.plans && h.states[k + 1].store.plans[p] == h.states[k].store.plans[p]
  {
    AlwaysInv(h, k);
    assert StepAt(h, k);
    AdmittedPlanStep(h.states[k], h.steps[k], p);
  }

  /** Until a cancel hands it on again, the plan of an abandoned invocation stays as it is: admitted. */
  lemma {:induction false} AbandonedPlanStays(h: Execution, a: nat, k: nat, p: nat, id: nat)
    requires Runs(h) && k <= |h.steps| && AbandonedAt(h, a, k, id)
    requires p in h.states[a].store.plans && h.states[a].store.plans[p].status == Admitted
    requires h.states[a].store.plans[p].admittedInvocation == Some(id)
    ensures p in h.states[k].store.plans && h.states[k].store.plans[p] == h.states[a].store.plans[p]
  {
    if a < k - 1 {
      AbandonedPlanStays(h, a, k - 1, p, id);
      AbandonedIsInactive(h, a, k - 1, id);
      AdmittedPlanAlong(h, k - 1, p, id);
    } else {
      AbandonAlong(h, a, id);
    }
  }

  /** A time-out that is abandoned is never handed on again: its invocation awaits nothing for ever. */
  lemma AbandonedTimeoutIsFinal(h: Execution, a: nat, k: nat, id: nat)
    requires Runs(h) && a < k <= |h.steps| && Abandons(h.states[a], h.steps[a], id)
    requires id in h.states[a].store.invocations && h.states[a].store.invocations[id].status == Failed
    ensures AbandonedAt(h, a, k, id) && !Active(h.states[k], id)
  {
    forall m | a < m < k ensures !CancelsAgain(h.states[m], h.steps[m], id) {
      EndedStaysEnded(h, a, m, id);
    }
    AbandonedIsInactive(h, a, k, id);
  }
}
