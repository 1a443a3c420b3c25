/**
 * A report is recorded without looking at the invocation again, so a row can open for an invocation that has ended.
 * The rows that outlive their invocation are exactly those, and those of an invocation whose forced completion was
 * abandoned.
 */
module ControlLateRows {
  import opened ControlPlane
  import opened ControlSafety
  import opened ControlTheorems
  import opened ControlRowSteps
  import opened ControlSettlement
  import opened ControlRows

  /** A row that is inserted while its invocation is not active comes from a report of the worker that claimed it. */
  lemma LateInsertIsReport(h: Execution, j: nat, row: ResourceKey)
    requires Runs(h) && InsertedAt(h, j, row) && !Active(h.states[j + 1], row.invocation)
    ensures h.steps[j].InsertSelected? && row.invocation in h.states[j + 1].store.invocations
    ensures h.states[j + 1].store.invocations[row.invocation].claimedBy.Some?
  {
    AlwaysInv(h, j);
    AlwaysInv(h, j + 1);
    assert StepAt(h, j);
    AddedRow(h.states[j], h.steps[j], row);
    if h.steps[j].AdmitPlan? {
      StartedAdmission(h.states[j], h.steps[j]);
    } else {
      ApplyRow(h.states[j], h.steps[j], row.invocation);
    }
  }

  lemma {:induction false} ClaimedStaysInactive(h: Execution, i: nat, k: nat, id: nat)
    requires Runs(h) && i <= k <= |h.steps| && id in h.states[i].store.invocations
    requires h.states[i].store.invocations[id].claimedBy.Some? && !Active(h.states[i], id)
    ensures id in h.states[k].store.invocations && !Active(h.states[k], id)
  {
    if i < k {
      ClaimedStaysInactive(h, i, k - 1, id);
      ClaimedForEver(h, i, k - 1, id);
      InactiveAlong(h, k - 1, id);
    }
  }

  /** An open row's invocation is active exactly when it was at the step that inserted the row, and has not been
      abandoned. */
  lemma OpenRowActiveIff(h: Execution, j: nat, k: nat, row: ResourceKey)
    requires Runs(h) && j < k <= |h.steps| && InsertedAt(h, j, row) && OpenAt(h, k, row)
    ensures Active(h.states[k], row.invocation) <==>
      Active(h.states[j + 1], row.invocation) && !Abandoned(h, k, row.invocation)
  {
    if Active(h.states[j + 1], row.invocation) {
      OpenIsUncompleted(h, j + 1, k, row);
      ActiveIffNotAbandoned(h, j + 1, k, row.invocation);
    } else {
      LateInsertIsReport(h, j, row);
      ClaimedStaysInactive(h, j + 1, k, row.invocation);
    }
  }

  /** The row was inserted, before state `k`, while its invocation was active. */
  ghost predicate InsertedInTime(h: Execution, k: nat, row: ResourceKey)
    requires |h.states| == |h.steps| + 1
  {
    exists j: nat :: j < k && InsertedAt(h, j, row) && Active(h.states[j + 1], row.invocation)
  }

  /** All open rows belong to invocations that are running or await their forced completion. */
  ghost predicate OpenRowsActive(st: State) {
    forall row :: row in st.store.resources && st.store.resources[row].open ==> Active(st, row.invocation)
  }

  /** At any time: every open row is of an active invocation if and only if every open row was inserted in time, for
      an invocation that has not been abandoned. */
  lemma OpenRowsActiveIff(h: Execution, k: nat)
    requires Runs(h) && k <= |h.steps|
    ensures OpenRowsActive(h.states[k]) <==>
      forall row :: OpenAt(h, k, row) ==> InsertedInTime(h, k, row) && !Abandoned(h, k, row.invocation)
  {
    forall row | OpenAt(h, k, row)
      ensures Active(h.states[k], row.invocation) <==>
        InsertedInTime(h, k, row) && !Abandoned(h, k, row.invocation)
    {
      var j := RowHasInsert(h, k, row);
      OpenRowActiveIff(h, j, k, row);
      if InsertedInTime(h, k, row) {
        var i: nat :| i < k && InsertedAt(h, i, row) && Active(h.states[i + 1], row.invocation);
        OneInsert(h, i, j, row);
      }
    }
  }

  /** Nothing but a finish event of its own node ever closes a row that was inserted too late. */
  lemma LateRowStaysOpen(h: Execution, j: nat, k: nat, row: ResourceKey)
    requires Runs(h) && j < k <= |h.steps| && InsertedAt(h, j, row) && !Active(h.states[j + 1], row.invocation)
    ensures OpenAt(h, k, row) || NodeFinishes(h, j + 1, k, row)
  {
    LateInsertIsReport(h, j, row);
    InsertedOpen(h, j, row);
    forall m | j + 1 <= m < k ensures !Active(h.states[m], row.invocation) {
      ClaimedStaysInactive(h, j + 1, m, row.invocation);
    }
    InactiveRowStaysOpen(h, j + 1, k, row);
  }

  lemma InsertedOpen(h: Execution, j: nat, row: ResourceKey)
    requires Runs(h) && InsertedAt(h, j, row)
    ensures OpenAt(h, j + 1, row)
  {
    assert StepAt(h, j);
    AddedRow(h.states[j], h.steps[j], row);
  }

  /** Nor does anything else close a row of a time-out whose forced completion was abandoned. */
  lemma AbandonedRowStaysOpen(h: Execution, a: nat, k: nat, row: ResourceKey)
    requires Runs(h) && a < k <= |h.steps| && Abandons(h.states[a], h.steps[a], row.invocation)
    requires row.invocation in h.states[a].store.invocations
    requires h.states[a].store.invocations[row.invocation].status == Failed && OpenAt(h, a, row)
    ensures OpenAt(h, k, row) || NodeFinishes(h, a + 1, k, row)
  {
    AbandonAlong(h, a, row.invocation);
    forall m | a + 1 <= m < k ensures !Active(h.states[m], row.invocation) {
      AbandonedTimeoutIsFinal(h, a, m, row.invocation);
    }
    InactiveRowStaysOpen(h, a + 1, k, row);
  }
}
