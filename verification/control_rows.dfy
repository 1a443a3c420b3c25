/** Open resource rows over whole executions: each has one insert, and only a completion or a finish closes it. */
module ControlRows {
  import opened ControlPlane
  import opened ControlSafety
  import opened ControlTheorems
  import opened ControlRowSteps
  import opened ControlSettlement

  ghost predicate OpenAt(h: Execution, k: nat, row: ResourceKey)
    requires k < |h.states|
  {
    row in h.states[k].store.resources && h.states[k].store.resources[row].open
  }

  /** Step `j` inserts the row. */
  ghost predicate InsertedAt(h: Execution, j: nat, row: ResourceKey)
    requires |h.states| == |h.steps| + 1
  {
    j < |h.steps| && row !in h.states[j].store.resources && row in h.states[j + 1].store.resources
  }

  lemma RowsStayAlong(h: Execution, k: nat)
    requires Runs(h) && k < |h.steps|
    ensures RowsStay(h.states[k].store.resources, h.states[k + 1].store.resources)
  {
    assert StepAt(h, k);
    RowsStayed(h.states[k], h.steps[k]);
  }

  /** Every row has one step that inserted it. */
  lemma {:induction false} RowHasInsert(h: Execution, k: nat, row: ResourceKey) returns (j: nat)
    requires Runs(h) && k <= |h.steps| && row in h.states[k].store.resources
    ensures j < k && InsertedAt(h, j, row)
  {
    if row in h.states[k - 1].store.resources {
      j := RowHasInsert(h, k - 1, row);
    } else {
      j := k - 1;
    }
  }

  lemma {:induction false} RowStaysIn(h: Execution, i: nat, k: nat, row: ResourceKey)
    requires Runs(h) && i <= k <= |h.steps| && row in h.states[i].store.resources
    ensures row in h.states[k].store.resources && (OpenAt(h, k, row) ==> OpenAt(h, i, row))
  {
    if i < k {
      RowStaysIn(h, i, k - 1, row);
      RowsStayAlong(h, k - 1);
    }
  }

  lemma OneInsert(h: Execution, i: nat, j: nat, row: ResourceKey)
    requires Runs(h) && InsertedAt(h, i, row) && InsertedAt(h, j, row)
    ensures i == j
  {
    if i < j { RowStaysIn(h, i + 1, j, row); }
    if j < i { RowStaysIn(h, j + 1, i, row); }
  }

  /** While a row is open, nothing has completed its invocation. */
  lemma OpenIsUncompleted(h: Execution, i: nat, k: nat, row: ResourceKey)
    requires Runs(h) && i <= k <= |h.steps| && row in h.states[i].store.resources && OpenAt(h, k, row)
    ensures Uncompleted(h, i, k, row.invocation)
  {
    forall m | i <= m < k ensures !Completes(h.states[m], h.steps[m], row.invocation) {
      RowStaysIn(h, i, m, row);
      RowStaysIn(h, m, m + 1, row);
      RowStaysIn(h, m + 1, k, row);
      if Completes(h.states[m], h.steps[m], row.invocation) { CompletionCloses(h, m, row); }
    }
  }

  lemma CompletionCloses(h: Execution, m: nat, row: ResourceKey)
    requires Runs(h) && m < |h.steps| && Completes(h.states[m], h.steps[m], row.invocation)
    ensures !OpenAt(h, m + 1, row)
  {
    AlwaysInv(h, m);
    assert StepAt(h, m);
    CompletedRowsClose(h.states[m], h.steps[m], row);
  }

  /** Some step from `i` on, before `k`, records the finish of the row's node. */
  ghost predicate NodeFinishes(h: Execution, i: nat, k: nat, row: ResourceKey)
    requires k <= |h.steps|
  {
    exists m: nat :: i <= m < k && IsFinishOf(h.steps[m], row)
  }

  lemma RowStaysOpenAlong(h: Execution, k: nat, row: ResourceKey)
    requires Runs(h) && k < |h.steps| && OpenAt(h, k, row) && !Active(h.states[k], row.invocation)
    requires !IsFinishOf(h.steps[k], row)
    ensures OpenAt(h, k + 1, row)
  {
    AlwaysInv(h, k);
    assert StepAt(h, k);
    InactiveIsUncompleted(h.states[k], h.steps[k], row.invocation);
    OpenRowStep(h.states[k], h.steps[k], row);
  }

  /** Nothing but a finish event of its own node ever closes a row whose invocation is not active. */
  lemma {:induction false} InactiveRowStaysOpen(h: Execution, i: nat, k: nat, row: ResourceKey)
    requires Runs(h) && i <= k <= |h.steps| && OpenAt(h, i, row)
    requires forall m :: i <= m < k ==> !Active(h.states[m], row.invocation)
    ensures OpenAt(h, k, row) || NodeFinishes(h, i, k, row)
  {
    if i < k {
      InactiveRowStaysOpen(h, i, k - 1, row);
      if !NodeFinishes(h, i, k, row) { RowStaysOpenAlong(h, k - 1, row); }
    }
  }
}
