/** What every interleaving of control-plane transactions keeps. */
module ControlSafety {
  import opened Common
  import opened ControlPlane

  // ---------------------------------------------------------------------------------------------
  // Invariants

  /** The table constraint on claims and leases; a finished row has an exit code and a completion time. */
  ghost predicate RowOk(inv: Invocation) {
    if inv.status == Running then
      inv.claimedBy.None? == inv.leaseToken.None? && inv.exitCode.None? && inv.completedAt.None?
    else
      inv.leaseToken.None? && inv.exitCode.Some? && inv.completedAt.Some?
  }

  ghost predicate Rows(st: State) {
    forall i :: i in st.store.invocations ==> RowOk(st.store.invocations[i])
  }

  /** The row stores exactly this completion. */
  ghost predicate Stored(inv: Invocation, c: Completion) {
    inv.status == c.status && c.status != Running && inv.exitCode == Some(c.exitCode) && inv.error == c.error
  }

  /** A forced completion that is under way agrees with the stored row. */
  ghost predicate PendingAgrees(st: State) {
    forall f :: f in st.pending ==>
      f.invocation in st.store.invocations && Stored(st.store.invocations[f.invocation], f.completion)
  }

  /** An invocation's plan was admitted for it, and is admitted still or ended as the invocation did. */
  ghost predicate LinksBack(st: State, i: nat)
    requires i in st.store.invocations
  {
    var inv := st.store.invocations[i];
    inv.planId.Some? ==>
      && inv.planId.value in st.store.plans
      && var plan := st.store.plans[inv.planId.value];
      && plan.admittedInvocation == Some(i) && inv.env == Some(plan.env)
      && (plan.status == Admitted || (inv.status != Running && plan.status == PlanStatusOf(inv.status)))
  }

  /** An admitted plan's invocation is its own. */
  ghost predicate LinksForward(st: State, p: nat)
    requires p in st.store.plans
  {
    var plan := st.store.plans[p];
    plan.status == Admitted ==>
      plan.admittedInvocation.Some? && plan.admittedInvocation.value in st.store.invocations &&
      st.store.invocations[plan.admittedInvocation.value].planId == Some(p)
  }

  ghost predicate Linked(st: State) {
    && (forall i :: i in st.store.invocations ==> LinksBack(st, i))
    && (forall p :: p in st.store.plans ==> LinksForward(st, p))
  }

  /** Resource rows belong to an invocation of their environment. */
  ghost predicate Scoped(st: State) {
    forall k :: k in st.store.resources ==>
      k.invocation in st.store.invocations &&
      st.store.invocations[k.invocation].env == Some(st.store.resources[k].env)
  }

  /** Reports that are being recorded come from the worker that claimed the invocation. */
  ghost predicate ReportsClaimed(st: State) {
    forall r :: r in st.reporting ==>
      r.invocation in st.store.invocations && st.store.invocations[r.invocation].claimedBy == Some(r.worker)
  }

  /** The plan is admitted and its invocation runs. */
  ghost predicate Executing(st: Store, p: nat) {
    && p in st.plans && st.plans[p].status == Admitted && st.plans[p].admittedInvocation.Some?
    && st.plans[p].admittedInvocation.value in st.invocations
    && st.invocations[st.plans[p].admittedInvocation.value].status == Running
  }

  /** Executing plans of one environment select disjoint resources. */
  ghost predicate Exclusive(st: Store) {
    forall p, q :: p != q && Executing(st, p) && Executing(st, q) && st.plans[p].env == st.plans[q].env ==>
      !Overlap(st.plans[p].selected, st.plans[q].selected)
  }

  ghost predicate IsPending(st: Store, p: nat) {
    p in st.plans && Admissible(st.plans[p].status)
  }

  /** Of two pending plans of one environment, one belongs to a reconcile call that has not superseded yet. */
  ghost predicate OnePending(st: State) {
    forall p, q ::
      p != q && IsPending(st.store, p) && IsPending(st.store, q) && st.store.plans[p].env == st.store.plans[q].env ==>
      p in st.superseding || q in st.superseding
  }

  /** The part of the invariant that is about plans. */
  ghost predicate PlansOk(st: State) {
    Linked(st) && Exclusive(st.store) && OnePending(st)
  }

  ghost predicate Inv(st: State) {
    Rows(st) && PendingAgrees(st) && Scoped(st) && ReportsClaimed(st) && PlansOk(st)
  }

  // ---------------------------------------------------------------------------------------------
  // One row through one step

  /** What may happen to a row: its scope stays, a finished row is final, a claim is never undone or passed on. */
  ghost predicate Evolves(a: Invocation, b: Invocation) {
    && a.planId == b.planId && a.env == b.env
    && (a.status != Running ==>
          b.status == a.status && b.exitCode == a.exitCode && b.error == a.error && b.completedAt == a.completedAt)
    && (a.claimedBy.Some? ==> b.claimedBy == a.claimedBy && (b.leaseToken == a.leaseToken || b.leaseToken.None?))
    && (b.status == Running ==> a.status == Running)
  }

  lemma CancelEvolves(inv: Invocation, now: int)
    requires RowOk(inv)
    ensures RowOk(CancelRow(inv, now)) && Evolves(inv, CancelRow(inv, now))
  {
  }

  lemma SweepEvolves(inv: Invocation, localStaleAt: int, serverStaleAt: int, now: int)
    requires RowOk(inv)
    ensures var row := SweepRow(inv, localStaleAt, serverStaleAt, now); RowOk(row) && Evolves(inv, row)
  {
  }

  /** The row of `i` after a step, by the kind of step; every other row stays. */
  function RowAfter(st: State, step: Step, i: nat): Invocation
    requires Enabled(st, step) && i in st.store.invocations
  {
    var inv := st.store.invocations[i];
    match step
    case Claim(id, worker, _, _, token, now) => if i == id then Claimed(inv, worker, token, now) else inv
    case Heartbeat(id, worker, token, now) =>
      if i == id && Held(inv, worker, token) then inv.(lastHeartbeatAt := Some(now)) else inv
    case RequestCancel(id, now) => if i == id then CancelRow(inv, now) else inv
    case SweepTimedOut(l, s, now) => SweepRow(inv, l, s, now)
    case CompleteByWorker(id, worker, token, c, now) =>
      if i == id && Held(inv, worker, token) && c.status != Running then Finish(inv, c, now) else inv
    case Force(f, now) =>
      if i == f.invocation then Finish(inv, f.completion, if inv.completedAt.Some? then inv.completedAt.value else now)
      else inv
    case _ => inv
  }

  lemma SweepInvocations(st: Store, l: int, s: int, now: int)
    ensures Sweep(st, l, s, now).invocations.Keys == st.invocations.Keys
    ensures forall i :: i in st.invocations ==>
      Sweep(st, l, s, now).invocations[i] == SweepRow(st.invocations[i], l, s, now)
  {
  }

  lemma AdmitInvocations(st: Store, a: Admission)
    requires a.invocation !in st.invocations
    ensures AdmissionOutcome(st, a) != Started ==> Admit(st, a).invocations == st.invocations
    ensures AdmissionOutcome(st, a) == Started ==>
      a.plan in st.plans && Admit(st, a).invocations == st.invocations[a.invocation :=
        NewInvocation(Some(a.plan), Some(st.plans[a.plan].env), Server, a.queue, true, a.deadline, a.now)]
  {
  }

  lemma ApplyRow(st: State, step: Step, i: nat)
    requires Enabled(st, step) && i in st.store.invocations
    ensures i in Apply(st, step).store.invocations && Apply(st, step).store.invocations[i] == RowAfter(st, step, i)
  {
    match step
    case SweepTimedOut(l, s, now) => SweepInvocations(st.store, l, s, now);
    case AdmitPlan(a) => AdmitInvocations(st.store, a);
    case _ =>
  }

  lemma RowEvolves(st: State, step: Step, i: nat)
    requires Rows(st) && PendingAgrees(st) && Enabled(st, step) && i in st.store.invocations
    ensures RowOk(RowAfter(st, step, i)) && Evolves(st.store.invocations[i], RowAfter(st, step, i))
  {
    var inv := st.store.invocations[i];
    assert RowOk(inv);
    match step
    case RequestCancel(id, now) => CancelEvolves(inv, now);
    case SweepTimedOut(l, s, now) => SweepEvolves(inv, l, s, now);
    case Force(f, _) => assert f.invocation == i ==> Stored(inv, f.completion);
    case _ =>
  }

  /** Rows that a step adds are running, unclaimed, and link to a plan only when an admission adds them. */
  lemma NewRows(st: State, step: Step, i: nat)
    requires Enabled(st, step) && i !in st.store.invocations && i in Apply(st, step).store.invocations
    ensures var row := Apply(st, step).store.invocations[i];
      && RowOk(row) && row.status == Running && row.claimedBy.None? && row.cancelRequestedAt.None?
      && (row.planId.Some? ==> step.AdmitPlan?)
  {
    match step
    case SweepTimedOut(l, s, now) => SweepInvocations(st.store, l, s, now);
    case AdmitPlan(a) => AdmitInvocations(st.store, a);
    case _ =>
  }

  lemma RowsKept(st: State, step: Step)
    requires Rows(st) && PendingAgrees(st) && Enabled(st, step)
    ensures Rows(Apply(st, step))
  {
    var st' := Apply(st, step);
    forall i | i in st'.store.invocations ensures RowOk(st'.store.invocations[i]) {
      if i in st.store.invocations {
        ApplyRow(st, step, i);
        RowEvolves(st, step, i);
      } else {
        NewRows(st, step, i);
      }
    }
  }

  /** A forced completion enters only with the update that stored it. */
  lemma NewPending(st: State, step: Step, f: Forced)
    requires Rows(st) && Enabled(st, step) && f in Apply(st, step).pending && f !in st.pending
    ensures f.invocation in st.store.invocations && Stored(RowAfter(st, step, f.invocation), f.completion)
  {
    match step
    case SweepTimedOut(l, s, now) => assert f in TimedOut(st.store.invocations, l, s, now);
    case RequestCancel(id, now) => CancelEvolves(st.store.invocations[id], now);
    case _ =>
  }

  lemma PendingAgreesKept(st: State, step: Step)
    requires Rows(st) && PendingAgrees(st) && Enabled(st, step)
    ensures PendingAgrees(Apply(st, step))
  {
    var st' := Apply(st, step);
    forall f | f in st'.pending
      ensures f.invocation in st'.store.invocations && Stored(st'.store.invocations[f.invocation], f.completion)
    {
      if f in st.pending {
        ApplyRow(st, step, f.invocation);
        RowEvolves(st, step, f.invocation);
      } else {
        NewPending(st, step, f);
        ApplyRow(st, step, f.invocation);
      }
    }
  }

  // ---------------------------------------------------------------------------------------------
  // Resource rows and reports

  /** Steps that insert resource rows. */
  predicate Inserts(step: Step) {
    step.InsertSelected? || step.AdmitPlan?
  }

  /** Resource rows stay, keep their environment and never open again; only an insert adds any. */
  ghost predicate RowsStay(a: map<ResourceKey, Resource>, b: map<ResourceKey, Resource>) {
    forall k :: k in a ==> k in b && b[k].env == a[k].env && (b[k].open ==> a[k].open)
  }

  lemma RowsStayed(st: State, step: Step)
    requires Enabled(st, step)
    ensures RowsStay(st.store.resources, Apply(st, step).store.resources)
    ensures !Inserts(step) ==> Apply(st, step).store.resources.Keys == st.store.resources.Keys
  {
  }

  /** A row that a step adds is open, and of the invocation that the report or the admission is for. */
  lemma AddedRow(st: State, step: Step, k: ResourceKey)
    requires Enabled(st, step) && k !in st.store.resources && k in Apply(st, step).store.resources
    ensures Apply(st, step).store.resources[k].open
    ensures
      || (step.InsertSelected? && k.invocation == step.report.invocation)
      || (step.AdmitPlan? && AdmissionOutcome(st.store, step.admission) == Started &&
        k.invocation == step.admission.invocation)
    ensures k.invocation in Apply(st, step).store.invocations
    ensures Apply(st, step).store.invocations[k.invocation].env == Some(Apply(st, step).store.resources[k].env)
  {
    RowsStayed(st, step);
  }

  lemma ScopedKept(st: State, step: Step)
    requires Rows(st) && PendingAgrees(st) && Scoped(st) && Enabled(st, step)
    ensures Scoped(Apply(st, step))
  {
    var st' := Apply(st, step);
    RowsStayed(st, step);
    forall k | k in st'.store.resources
      ensures k.invocation in st'.store.invocations
      ensures st'.store.invocations[k.invocation].env == Some(st'.store.resources[k].env)
    {
      if k in st.store.resources {
        ApplyRow(st, step, k.invocation);
        RowEvolves(st, step, k.invocation);
      } else {
        AddedRow(st, step, k);
      }
    }
  }

  lemma ReportsClaimedKept(st: State, step: Step)
    requires Rows(st) && PendingAgrees(st) && ReportsClaimed(st) && Enabled(st, step)
    ensures ReportsClaimed(Apply(st, step))
  {
    var st' := Apply(st, step);
    forall r | r in st'.reporting
      ensures r.invocation in st'.store.invocations && st'.store.invocations[r.invocation].claimedBy == Some(r.worker)
    {
      assert r in st.reporting || (step.BeginReport? && step.report == r && ClaimMatches(st.store, r));
      ApplyRow(st, step, r.invocation);
      RowEvolves(st, step, r.invocation);
    }
  }

  // ---------------------------------------------------------------------------------------------
  // Steps that touch invocation rows and forced completions only

  /** Plans and resources stay; rows keep their plan, and none starts to run again. */
  ghost predicate Quiet(st: State, st': State) {
    && st'.store.plans == st.store.plans && st'.store.resources == st.store.resources
    && st'.superseding == st.superseding
    && (forall i :: i in st.store.invocations ==>
          i in st'.store.invocations && QuietRow(st.store.invocations[i], st'.store.invocations[i]))
    && (forall i :: i in st'.store.invocations && i !in st.store.invocations ==> st'.store.invocations[i].planId.None?)
  }

  ghost predicate QuietRow(a: Invocation, b: Invocation) {
    b.planId == a.planId && b.env == a.env && (b.status == a.status || a.status == Running)
  }

  predicate OnRowsOnly(step: Step) {
    step.CreateInvocation? || step.Claim? || step.Heartbeat? || step.RequestCancel? || step.SweepTimedOut? ||
    step.Abandon?
  }

  lemma RowStepsAreQuiet(st: State, step: Step)
    requires Rows(st) && PendingAgrees(st) && Enabled(st, step) && OnRowsOnly(step)
    ensures Quiet(st, Apply(st, step))
  {
    var st' := Apply(st, step);
    forall i | i in st.store.invocations
      ensures i in st'.store.invocations && QuietRow(st.store.invocations[i], st'.store.invocations[i])
    {
      ApplyRow(st, step, i);
      RowEvolves(st, step, i);
    }
    forall i | i in st'.store.invocations && i !in st.store.invocations ensures st'.store.invocations[i].planId.None? {
      NewRows(st, step, i);
    }
  }

  lemma QuietKeeps(st: State, st': State)
    requires Quiet(st, st') && Linked(st) && Exclusive(st.store) && OnePending(st)
    ensures Linked(st') && Exclusive(st'.store) && OnePending(st')
  {
    forall i | i in st'.store.invocations ensures LinksBack(st', i) {
      if i in st.store.invocations {
        assert LinksBack(st, i) && QuietRow(st.store.invocations[i], st'.store.invocations[i]);
      }
    }
    forall p | p in st'.store.plans ensures LinksForward(st', p) { assert LinksForward(st, p); }
    forall p | Executing(st'.store, p) ensures Executing(st.store, p) {
      assert LinksForward(st, p);
      var i := st.store.plans[p].admittedInvocation.value;
      assert QuietRow(st.store.invocations[i], st'.store.invocations[i]);
    }
    forall p ensures IsPending(st'.store, p) <==> IsPending(st.store, p) {}
  }

  // ---------------------------------------------------------------------------------------------
  // Completions

  /** `i` ends with `status`: its rows close and its plan, if any, ends with it. */
  ghost predicate Finishes(st: State, st': State, i: nat, status: Status) {
    && i in st.store.invocations && status != Running
    && (st.store.invocations[i].status == Running || st.store.invocations[i].status == status)
    && st'.store.invocations.Keys == st.store.invocations.Keys
    && (forall j :: j in st.store.invocations && j != i ==> st'.store.invocations[j] == st.store.invocations[j])
    && st'.store.invocations[i].status == status
    && st'.store.invocations[i].planId == st.store.invocations[i].planId
    && st'.store.invocations[i].env == st.store.invocations[i].env
    && st'.store.resources == CloseResources(st.store.resources, i)
    && (forall p :: p in st'.store.plans <==> p in st.store.plans)
    && (forall p :: p in st.store.plans && st.store.invocations[i].planId != Some(p) ==>
      st'.store.plans[p] == st.store.plans[p])
    && (forall p :: p in st.store.plans && st.store.invocations[i].planId == Some(p) ==>
          && st'.store.plans[p].status == PlanStatusOf(status) && st'.store.plans[p].env == st.store.plans[p].env
          && st'.store.plans[p].admittedInvocation == st.store.plans[p].admittedInvocation)
    && st'.superseding == st.superseding
  }

  lemma WorkerCompletionFinishes(st: State, step: Step)
    requires step.CompleteByWorker? && Accepted(st.store, step.id, step.worker, step.token) &&
      step.completion.status != Running
    ensures Finishes(st, Apply(st, step), step.id, step.completion.status)
  {
  }

  lemma ForcedCompletionFinishes(st: State, step: Step)
    requires step.Force? && Enabled(st, step) && PendingAgrees(st)
    ensures Finishes(st, Apply(st, step), step.forced.invocation, step.forced.completion.status)
  {
  }

  lemma FinishesKeeps(st: State, st': State, i: nat, status: Status)
    requires Finishes(st, st', i, status)
    requires Linked(st) && Exclusive(st.store) && OnePending(st)
    ensures Linked(st') && Exclusive(st'.store) && OnePending(st')
  {
    forall j | j in st'.store.invocations ensures LinksBack(st', j) { assert LinksBack(st, j) && LinksBack(st, i); }
    forall p | p in st'.store.plans ensures LinksForward(st', p) { assert LinksForward(st, p) && LinksBack(st, i); }
    forall p | Executing(st'.store, p)
      ensures Executing(st.store, p) && st'.store.plans[p] == st.store.plans[p]
    {
      assert st.store.invocations[i].planId != Some(p);
    }
    forall p | IsPending(st'.store, p)
      ensures IsPending(st.store, p) && st'.store.plans[p] == st.store.plans[p]
    {
      assert st.store.invocations[i].planId != Some(p);
    }
  }

  // ---------------------------------------------------------------------------------------------
  // Resource rows, plan creation and supersession

  /** Only resource rows and the reports under way change. */
  ghost predicate OnResourcesOnly(st: State, st': State) {
    && st'.store.invocations == st.store.invocations && st'.store.plans == st.store.plans
    && st'.pending == st.pending && st'.superseding == st.superseding
  }

  predicate OnReport(step: Step) {
    step.BeginReport? || step.InsertSelected? || step.NodeFinished? || step.EndReport?
  }

  lemma ResourceStepsOnResources(st: State, step: Step)
    requires Enabled(st, step) && OnReport(step)
    ensures OnResourcesOnly(st, Apply(st, step))
  {
  }

  /** Plans that no invocation is linked to change, and none of them becomes admitted. */
  ghost predicate OnUnlinkedPlans(st: State, st': State) {
    && st'.store.invocations == st.store.invocations && st'.store.resources == st.store.resources
    && st'.pending == st.pending
    && (forall p :: p in st.store.plans ==> p in st'.store.plans && st'.store.plans[p].env == st.store.plans[p].env)
    && (forall p :: p in st.store.plans && !Admissible(st.store.plans[p].status) ==>
      st'.store.plans[p] == st.store.plans[p])
    && (forall p :: p in st'.store.plans && st'.store.plans[p].status == Admitted ==>
          p in st.store.plans && st'.store.plans[p] == st.store.plans[p])
  }

  lemma OnUnlinkedPlansKeeps(st: State, st': State)
    requires OnUnlinkedPlans(st, st') && Linked(st) && Exclusive(st.store)
    ensures Linked(st') && Exclusive(st'.store)
  {
    forall i | i in st'.store.invocations ensures LinksBack(st', i) { assert LinksBack(st, i); }
    forall p | p in st'.store.plans ensures LinksForward(st', p) {
      if st'.store.plans[p].status == Admitted { assert LinksForward(st, p); }
    }
    forall p | Executing(st'.store, p) ensures Executing(st.store, p) && st'.store.plans[p] == st.store.plans[p] {}
  }

  lemma PlanStepsOnUnlinked(st: State, step: Step)
    requires Enabled(st, step) && (step.CreatePlan? || step.SupersedeOthers?)
    ensures OnUnlinkedPlans(st, Apply(st, step))
  {
  }

  lemma PlanStepsKeepOnePending(st: State, step: Step)
    requires OnePending(st) && Enabled(st, step) && (step.CreatePlan? || step.SupersedeOthers?)
    ensures OnePending(Apply(st, step))
  {
    var st' := Apply(st, step);
    forall p, q | p != q && IsPending(st'.store, p) && IsPending(st'.store, q) &&
      st'.store.plans[p].env == st'.store.plans[q].env
      ensures p in st'.superseding || q in st'.superseding
    {
      if step.SupersedeOthers? {
        assert IsPending(st.store, p) && IsPending(st.store, q);
      } else if p != step.plan && q != step.plan {
        assert IsPending(st.store, p) && IsPending(st.store, q);
      }
    }
  }

  // ---------------------------------------------------------------------------------------------
  // Admission

  /** What an admission that does not start does: at most its own pending plan changes. */
  lemma UnstartedAdmission(st: State, step: Step)
    requires step.AdmitPlan? && Enabled(st, step) && AdmissionOutcome(st.store, step.admission) != Started
    ensures OnUnlinkedPlans(st, Apply(st, step)) && Apply(st, step).superseding == st.superseding
    ensures forall p :: IsPending(Apply(st, step).store, p) ==> IsPending(st.store, p)
  {
    var a, st' := step.admission, Apply(st, step);
    assert st'.store.plans == st.store.plans ||
      (a.plan in st.store.plans && Admissible(st.store.plans[a.plan].status) &&
        st'.store.plans == st.store.plans[a.plan := st'.store.plans[a.plan]]);
  }

  /** A started admission: the plan was pending, and nothing executing overlaps its new selection. */
  ghost predicate StartsPlan(st: State, st': State, p: nat, i: nat) {
    && IsPending(st.store, p) && i !in st.store.invocations
    && st'.pending == st.pending && st'.superseding == st.superseding
    && st'.store.invocations.Keys == st.store.invocations.Keys + {i}
    && (forall j :: j in st.store.invocations ==> st'.store.invocations[j] == st.store.invocations[j])
    && st'.store.plans.Keys == st.store.plans.Keys
    && (forall q :: q in st.store.plans && q != p ==> st'.store.plans[q] == st.store.plans[q])
    && var plan, inv := st'.store.plans[p], st'.store.invocations[i];
    && plan.status == Admitted && plan.admittedInvocation == Some(i) && plan.env == st.store.plans[p].env
    && inv.status == Running && inv.planId == Some(p) && inv.env == Some(plan.env)
    && (forall q :: q != p && Executing(st.store, q) && st.store.plans[q].env == plan.env ==>
          !Overlap(st.store.plans[q].selected, plan.selected))
  }

  lemma OverlapIsConflict(st: Store, p: nat, q: nat)
    requires p in st.plans && q != p && Executing(st, q) && st.plans[q].env == st.plans[p].env
    requires st.invocations[st.plans[q].admittedInvocation.value].completedAt.None?
    ensures Overlap(st.plans[q].selected, st.plans[p].selected) ==>
      st.plans[q].admittedInvocation.value in Conflicts(st, p)
  {
  }

  lemma StartedWithoutOverlap(st: State, a: Admission, q: nat)
    requires Rows(st) && AdmissionOutcome(st.store, a) == Started
    requires q != a.plan && Executing(st.store, q) && st.store.plans[q].env == st.store.plans[a.plan].env
    ensures !Overlap(st.store.plans[q].selected, Replanned(st.store.plans[a.plan], a.replan, a.now).selected)
  {
    var replanned := ReplannedStore(st.store, a);
    assert RowOk(st.store.invocations[st.store.plans[q].admittedInvocation.value]);
    OverlapIsConflict(replanned, a.plan, q);
  }

  /** The invocation holds a resource of the plan: it has an open row on it in the plan's environment, or runs for
      another admitted plan of the environment that selects it. */
  ghost predicate Occupied(st: Store, p: nat, i: nat, x: string)
    requires p in st.plans
  {
    || (ResourceKey(i, x) in st.resources && st.resources[ResourceKey(i, x)] == Resource(st.plans[p].env, true))
    || exists q :: q != p && q in st.plans && RunsFor(st, q, i) && Selects(st.plans[q], st.plans[p].env, x)
  }

  predicate Selects(plan: Plan, env: nat, x: string) {
    plan.env == env && x in plan.selected
  }

  /** The plan is admitted with this invocation, which runs. */
  ghost predicate RunsFor(st: Store, q: nat, i: nat)
    requires q in st.plans
  {
    && st.plans[q].status == Admitted && st.plans[q].admittedInvocation == Some(i)
    && i in st.invocations && st.invocations[i].status == Running && st.invocations[i].completedAt.None?
  }

  ghost predicate OpensOn(st: Store, p: nat, k: ResourceKey)
    requires p in st.plans && k in st.resources
  {
    st.resources[k] == Resource(st.plans[p].env, true) && k.uniqueId in st.plans[p].selected
  }

  /** An invocation conflicts with a plan exactly when it holds a resource that the plan selects. */
  lemma ConflictsIff(st: Store, p: nat, i: nat)
    requires p in st.plans
    ensures i in Conflicts(st, p) <==> exists x :: x in st.plans[p].selected && Occupied(st, p, i, x)
  {
    if i in Conflicts(st, p) {
      if k :| k in st.resources && OpensOn(st, p, k) && k.invocation == i {
        assert k == ResourceKey(i, k.uniqueId) && Occupied(st, p, i, k.uniqueId);
      } else {
        var q :| q in st.plans && q != p && st.plans[q].env == st.plans[p].env && st.plans[q].status == Admitted &&
          st.plans[q].admittedInvocation == Some(i) && IsRunning(st, i) &&
          Overlap(st.plans[q].selected, st.plans[p].selected);
        var x :| x in st.plans[q].selected && x in st.plans[p].selected;
        assert Occupied(st, p, i, x);
      }
    }
    if x :| x in st.plans[p].selected && Occupied(st, p, i, x) {
      if ResourceKey(i, x) in st.resources && st.resources[ResourceKey(i, x)] == Resource(st.plans[p].env, true) {
        assert ResourceKey(i, x).uniqueId == x;
      } else {
        var q :| q != p && q in st.plans && RunsFor(st, q, i) && Selects(st.plans[q], st.plans[p].env, x);
        assert Overlap(st.plans[q].selected, st.plans[p].selected) && IsRunning(st, i);
      }
    }
  }

  lemma NoConflictIff(st: Store, p: nat)
    requires p in st.plans
    ensures Conflicts(st, p) == {} <==> forall i, x :: x in st.plans[p].selected ==> !Occupied(st, p, i, x)
  {
    if Conflicts(st, p) != {} {
      var i := MemberOf(Conflicts(st, p));
      ConflictsIff(st, p, i);
    }
    forall i, x | x in st.plans[p].selected && Occupied(st, p, i, x) ensures Conflicts(st, p) != {} {
      ConflictsIff(st, p, i);
    }
  }

  /** The selection that the replan leaves. */
  function Selected(plan: Plan, replan: Replan): seq<string> {
    if replan.Select? then replan.resources else plan.selected
  }

  lemma OccupiedAfterReplan(st: Store, a: Admission, i: nat, x: string)
    requires a.plan in st.plans
    ensures Occupied(ReplannedStore(st, a), a.plan, i, x) <==> Occupied(st, a.plan, i, x)
  {
    var after := ReplannedStore(st, a);
    forall q | q != a.plan && q in st.plans ensures RunsFor(after, q, i) <==> RunsFor(st, q, i) {}
  }

  /** A pending plan that stands after its replan and can be prepared starts exactly when no invocation holds one of
      the resources it then selects. */
  lemma StartsIffNothingOccupied(st: Store, a: Admission)
    requires a.plan in st.plans && Admissible(st.plans[a.plan].status) && a.replan != Select([]) && a.prepares
    ensures AdmissionOutcome(st, a) == Started <==>
      forall i, x :: x in Selected(st.plans[a.plan], a.replan) ==> !Occupied(st, a.plan, i, x)
  {
    var after := ReplannedStore(st, a);
    assert after.plans[a.plan].selected == Selected(st.plans[a.plan], a.replan);
    forall i, x ensures Occupied(after, a.plan, i, x) <==> Occupied(st, a.plan, i, x) {
      OccupiedAfterReplan(st, a, i, x);
    }
    NoConflictIff(after, a.plan);
  }

  lemma StartedAdmission(st: State, step: Step)
    requires Rows(st) && step.AdmitPlan? && Enabled(st, step) && AdmissionOutcome(st.store, step.admission) == Started
    ensures StartsPlan(st, Apply(st, step), step.admission.plan, step.admission.invocation)
  {
    var a := step.admission;
    forall q | q != a.plan && Executing(st.store, q) && st.store.plans[q].env == st.store.plans[a.plan].env
      ensures !Overlap(st.store.plans[q].selected, Replanned(st.store.plans[a.plan], a.replan, a.now).selected)
    {
      StartedWithoutOverlap(st, a, q);
    }
  }

  lemma StartsPlanKeeps(st: State, st': State, p: nat, i: nat)
    requires StartsPlan(st, st', p, i)
    requires Linked(st) && Exclusive(st.store) && OnePending(st)
    ensures Linked(st') && Exclusive(st'.store) && OnePending(st')
  {
    forall q | q != p && Executing(st'.store, q) ensures Executing(st.store, q) {
      assert LinksForward(st, q);
    }
    forall a, b | a != b && Executing(st'.store, a) && Executing(st'.store, b) &&
      st'.store.plans[a].env == st'.store.plans[b].env
      ensures !Overlap(st'.store.plans[a].selected, st'.store.plans[b].selected)
    {
      OverlapSymmetric(st'.store.plans[a].selected, st'.store.plans[b].selected);
    }
    forall q | IsPending(st'.store, q) ensures IsPending(st.store, q) && q != p {}
  }

  lemma OverlapSymmetric(a: seq<string>, b: seq<string>)
    ensures Overlap(a, b) <==> Overlap(b, a)
  {
  }

  // ---------------------------------------------------------------------------------------------
  // All steps

  lemma CompletionKeeps(st: State, step: Step)
    requires PlansOk(st) && PendingAgrees(st) && Enabled(st, step) && (step.CompleteByWorker? || step.Force?)
    ensures PlansOk(Apply(st, step))
  {
    var st' := Apply(st, step);
    match step {
      case CompleteByWorker(id, worker, token, c, _) =>
        if Accepted(st.store, id, worker, token) && c.status != Running {
          WorkerCompletionFinishes(st, step);
          FinishesKeeps(st, st', id, c.status);
        }
      case Force(f, _) =>
        ForcedCompletionFinishes(st, step);
        FinishesKeeps(st, st', f.invocation, f.completion.status);
    }
  }

  lemma AdmissionKeeps(st: State, step: Step)
    requires PlansOk(st) && Rows(st) && Enabled(st, step) && step.AdmitPlan?
    ensures PlansOk(Apply(st, step))
  {
    var st', a := Apply(st, step), step.admission;
    if AdmissionOutcome(st.store, a) == Started {
      StartedAdmission(st, step);
      StartsPlanKeeps(st, st', a.plan, a.invocation);
    } else {
      UnstartedAdmission(st, step);
      OnUnlinkedPlansKeeps(st, st');
    }
  }

  lemma PlanStepKeeps(st: State, step: Step)
    requires PlansOk(st) && Enabled(st, step) && (step.CreatePlan? || step.SupersedeOthers?)
    ensures PlansOk(Apply(st, step))
  {
    PlanStepsOnUnlinked(st, step);
    OnUnlinkedPlansKeeps(st, Apply(st, step));
    PlanStepsKeepOnePending(st, step);
  }

  lemma PlansKept(st: State, step: Step)
    requires PlansOk(st) && Rows(st) && PendingAgrees(st) && Enabled(st, step)
    ensures PlansOk(Apply(st, step))
  {
    if step.CompleteByWorker? || step.Force? {
      CompletionKeeps(st, step);
    } else if step.AdmitPlan? {
      AdmissionKeeps(st, step);
    } else if step.CreatePlan? || step.SupersedeOthers? {
      PlanStepKeeps(st, step);
    } else if OnReport(step) {
      ResourceStepsOnResources(st, step);
    } else {
      RowStepsAreQuiet(st, step);
      QuietKeeps(st, Apply(st, step));
    }
  }

  lemma InvKept(st: State, step: Step)
    requires Inv(st) && Enabled(st, step)
    ensures Inv(Apply(st, step))
  {
    RowsKept(st, step);
    PendingAgreesKept(st, step);
    ScopedKept(st, step);
    ReportsClaimedKept(st, step);
    PlansKept(st, step);
  }
}
