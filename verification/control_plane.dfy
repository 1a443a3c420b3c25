/**
 * Invocations, plans and selected resources, as one store that transactions update. Each transaction is one
 * step; the sweep and cancel updates and the forced completion that follows them are two separate steps.
 */
module ControlPlane {
  import opened Common
  import Retry

  datatype Status = Running | Succeeded | Failed | Canceled

  datatype Mode = Local | Server

  datatype Invocation = Invocation(
    planId: Option<nat>,
    env: Option<nat>,
    mode: Mode,
    queue: string,
    hasSpec: bool,
    startedAt: int,
    claimDeadlineAt: Option<int>,
    status: Status,
    exitCode: Option<int>,
    error: Option<string>,
    completedAt: Option<int>,
    claimedBy: Option<string>,
    leaseToken: Option<nat>,
    claimedAt: Option<int>,
    lastHeartbeatAt: Option<int>,
    cancelRequestedAt: Option<int>)

  datatype PlanStatus = Planned | Blocked | Admitted | PlanCompleted | PlanFailed | PlanCanceled | Superseded

  datatype Plan = Plan(
    env: nat,
    status: PlanStatus,
    selected: seq<string>,
    admittedInvocation: Option<nat>,
    blockedBy: Option<nat>,
    supersededBy: Option<nat>,
    failureCount: nat,
    nextAttemptAt: Option<int>,
    completedAt: Option<int>)

  datatype ResourceKey = ResourceKey(invocation: nat, uniqueId: string)

  /** A row of selected resources; it is open until its node or its invocation finishes. */
  datatype Resource = Resource(env: nat, open: bool)

  datatype Store = Store(
    invocations: map<nat, Invocation>,
    plans: map<nat, Plan>,
    resources: map<ResourceKey, Resource>)

  datatype Completion = Completion(status: Status, exitCode: int, error: Option<string>)

  /** A completion that a sweep or a cancel has returned and that is still to be forced. */
  datatype Forced = Forced(invocation: nat, completion: Completion)

  // ---------------------------------------------------------------------------------------------
  // Statements on invocation rows

  function NewInvocation(planId: Option<nat>, env: Option<nat>, mode: Mode, queue: string, hasSpec: bool,
                         deadline: Option<int>, now: int): Invocation {
    Invocation(planId, env, mode, queue, hasSpec, now, deadline, Running, None, None, None, None, None, None, None,
      None)
  }

  predicate Claimable(inv: Invocation, mode: Option<Mode>, queues: set<string>, now: int) {
    && inv.status == Running && inv.hasSpec
    && (mode.None? || inv.mode == mode.value)
    && inv.queue in queues
    && (inv.claimDeadlineAt.None? || inv.claimDeadlineAt.value >= now)
    && inv.claimedBy.None?
  }

  function Claimed(inv: Invocation, worker: string, token: nat, now: int): Invocation {
    inv.(claimedBy := Some(worker), leaseToken := Some(token), claimedAt := Some(now), lastHeartbeatAt := Some(now))
  }

  /** The fence of every worker call: the row runs, claimed by this worker under this token. */
  predicate Held(inv: Invocation, worker: string, token: nat) {
    inv.status == Running && inv.claimedBy == Some(worker) && inv.leaseToken == Some(token)
  }

  function Finish(inv: Invocation, c: Completion, at: int): Invocation {
    inv.(status := c.status, exitCode := Some(c.exitCode), error := c.error, completedAt := Some(at),
      leaseToken := None)
  }

  const CANCELED := Completion(Canceled, 130, Some("invocation canceled"))
  const NOT_CLAIMED := Completion(Failed, 1, Some("worker did not claim invocation before startup deadline"))
  const HEARTBEAT_LOST := Completion(Failed, 1, Some("worker heartbeat timed out"))

  /** A running row is marked; one that nobody has claimed is canceled at once. */
  function CancelRow(inv: Invocation, now: int): Invocation {
    if inv.status != Running then inv
    else
      var marked := inv.(cancelRequestedAt := if inv.cancelRequestedAt.Some? then inv.cancelRequestedAt else Some(now));
      if marked.claimedBy.None? then marked.(status := Canceled, exitCode := Some(130), error := CANCELED.error,
        completedAt := Some(now))
      else marked
  }

  predicate ClaimExpired(inv: Invocation, now: int) {
    inv.status == Running && inv.claimedBy.None? && inv.claimDeadlineAt.Some? && inv.claimDeadlineAt.value < now
  }

  function LastSign(inv: Invocation): int {
    if inv.lastHeartbeatAt.Some? then inv.lastHeartbeatAt.value
    else if inv.claimedAt.Some? then inv.claimedAt.value
    else inv.startedAt
  }

  predicate HeartbeatExpired(inv: Invocation, localStaleAt: int, serverStaleAt: int) {
    inv.status == Running && inv.claimedBy.Some? &&
    LastSign(inv) < match inv.mode { case Local => localStaleAt case Server => serverStaleAt }
  }

  function SweepRow(inv: Invocation, localStaleAt: int, serverStaleAt: int, now: int): Invocation {
    if ClaimExpired(inv, now) then Finish(inv, NOT_CLAIMED, now)
    else if HeartbeatExpired(inv, localStaleAt, serverStaleAt) then Finish(inv, HEARTBEAT_LOST, now)
    else inv
  }

  /** The rows a sweep times out, with what it stored in them. */
  function TimedOut(invocations: map<nat, Invocation>, localStaleAt: int, serverStaleAt: int, now: int): set<Forced> {
    (set i | i in invocations && ClaimExpired(invocations[i], now) :: Forced(i, NOT_CLAIMED)) +
    (set i | i in invocations && HeartbeatExpired(invocations[i], localStaleAt, serverStaleAt) ::
      Forced(i, HEARTBEAT_LOST))
  }

  function Sweep(st: Store, localStaleAt: int, serverStaleAt: int, now: int): Store {
    st.(invocations := map i | i in st.invocations :: SweepRow(st.invocations[i], localStaleAt, serverStaleAt, now))
  }

  // ---------------------------------------------------------------------------------------------
  // Completion

  function PlanStatusOf(status: Status): PlanStatus {
    match status
    case Succeeded => PlanCompleted
    case Failed => PlanFailed
    case Canceled => PlanCanceled
    case Running => PlanFailed
  }

  function CompletePlan(plan: Plan, status: Status, now: int): Plan {
    var done := PlanStatusOf(status);
    var failures := if done == PlanCompleted then 0 else plan.failureCount + 1;
    plan.(status := done, failureCount := failures, completedAt := Some(now),
      nextAttemptAt := if done == PlanCompleted then None else Some(now + Retry.Backoff(failures)))
  }

  function CloseResources(resources: map<ResourceKey, Resource>, i: nat): map<ResourceKey, Resource> {
    map k | k in resources :: if k.invocation == i then resources[k].(open := false) else resources[k]
  }

  /** What completing an invocation does besides its own row: close its resources, complete its plan. */
  function SideEffects(st: Store, i: nat, status: Status, now: int): Store
    requires i in st.invocations
  {
    var planId := st.invocations[i].planId;
    st.(resources := CloseResources(st.resources, i),
      plans := if planId.Some? && planId.value in st.plans
        then st.plans[planId.value := CompletePlan(st.plans[planId.value], status, now)] else st.plans)
  }

  /**
   * A worker's completion. The row constraint forbids a claimed running row without a lease token, so a
   * completion that carries status Running rolls back.
   */
  function Complete(st: Store, i: nat, worker: string, token: nat, c: Completion, now: int): Store {
    if i !in st.invocations || !Held(st.invocations[i], worker, token) || c.status == Running then st
    else
      var done := SideEffects(st, i, c.status, now);
      done.(invocations := done.invocations[i := Finish(done.invocations[i], c, now)])
  }

  /** A forced completion keeps the completion time that is there. */
  function ForceComplete(st: Store, f: Forced, now: int): Store {
    if f.invocation !in st.invocations then st
    else
      var i, c := f.invocation, f.completion;
      var done := SideEffects(st, i, c.status, now);
      var inv := done.invocations[i];
      done.(invocations := done.invocations[i :=
        Finish(inv, c, if inv.completedAt.Some? then inv.completedAt.value else now)])
  }

  // ---------------------------------------------------------------------------------------------
  // Plans

  predicate Admissible(status: PlanStatus) {
    status == Planned || status == Blocked
  }

  predicate Terminal(status: PlanStatus) {
    status == PlanCompleted || status == PlanFailed || status == PlanCanceled || status == Superseded
  }

  function NewPlan(env: nat, selected: seq<string>): Plan {
    Plan(env, Planned, selected, None, None, None, 0, None, None)
  }

  function Supersede(plans: map<nat, Plan>, winner: nat): map<nat, Plan>
    requires winner in plans
  {
    map p | p in plans ::
      if plans[p].env == plans[winner].env && Admissible(plans[p].status) && p != winner
      then plans[p].(status := Superseded, supersededBy := Some(winner)) else plans[p]
  }

  predicate Overlap(a: seq<string>, b: seq<string>) {
    exists x :: x in a && x in b
  }

  /** Invocations with an open row on a resource of the plan, or running for an overlapping admitted plan. */
  function Conflicts(st: Store, p: nat): set<nat>
    requires p in st.plans
  {
    var plan := st.plans[p];
    (set k | k in st.resources && st.resources[k].open && st.resources[k].env == plan.env && k.uniqueId in plan.selected
      :: k.invocation) +
    (set q | q in st.plans && q != p && st.plans[q].env == plan.env && st.plans[q].status == Admitted &&
      st.plans[q].admittedInvocation.Some? && IsRunning(st, st.plans[q].admittedInvocation.value) &&
      Overlap(st.plans[q].selected, plan.selected) :: st.plans[q].admittedInvocation.value)
  }

  predicate IsRunning(st: Store, i: nat) {
    i in st.invocations && st.invocations[i].status == Running && st.invocations[i].completedAt.None?
  }

  /** What replanning finds before an admission: the plan stands, or has a new selection. */
  datatype Replan = Keep | Select(resources: seq<string>)

  function Replanned(plan: Plan, replan: Replan, now: int): Plan {
    match replan
    case Keep => plan
    case Select(resources) =>
      if resources == [] then
        plan.(status := PlanCompleted, selected := [], blockedBy := None, failureCount := 0, nextAttemptAt := None,
          completedAt := Some(now))
      else plan.(selected := resources, nextAttemptAt := None)
  }

  function OpenRows(resources: map<ResourceKey, Resource>, i: nat, env: nat, names: seq<string>):
    map<ResourceKey, Resource>
  {
    map k | k in resources.Keys + set x | x in names :: ResourceKey(i, x) ::
      if k in resources then resources[k] else Resource(env, true)
  }

  datatype AdmitOutcome = NotFound | NotAdmissible | Noop | IsBlocked | NotPrepared | Started

  /** The admission of a plan: replan, check for conflicts, and start its invocation. */
  datatype Admission = Admission(plan: nat, replan: Replan, prepares: bool, invocation: nat, queue: string,
                                 deadline: Option<int>, blocker: nat, now: int)

  function AdmissionOutcome(st: Store, a: Admission): AdmitOutcome {
    if a.plan !in st.plans then NotFound
    else if !Admissible(st.plans[a.plan].status) then NotAdmissible
    else
      var replanned := ReplannedStore(st, a);
      if replanned.plans[a.plan].status == PlanCompleted then Noop
      else if Conflicts(replanned, a.plan) != {} then IsBlocked
      else if !a.prepares then NotPrepared
      else Started
  }

  function ReplannedStore(st: Store, a: Admission): Store
    requires a.plan in st.plans
  {
    st.(plans := st.plans[a.plan := Replanned(st.plans[a.plan], a.replan, a.now)])
  }

  /** Blockers are listed in ascending order and the first is recorded. */
  predicate IsFirstConflict(st: Store, a: Admission)
    requires a.plan in st.plans
  {
    var conflicts := Conflicts(ReplannedStore(st, a), a.plan);
    a.blocker in conflicts && forall i :: i in conflicts ==> a.blocker <= i
  }

  function Admit(st: Store, a: Admission): Store {
    var outcome := AdmissionOutcome(st, a);
    if outcome == NotFound || outcome == NotAdmissible then st
    else
      var plan := Replanned(st.plans[a.plan], a.replan, a.now);
      match outcome
      case IsBlocked =>
        st.(plans := st.plans[a.plan := plan.(status := Blocked, blockedBy := Some(a.blocker), nextAttemptAt := None)])
      case Started =>
        st.(invocations := st.invocations[a.invocation :=
              NewInvocation(Some(a.plan), Some(plan.env), Server, a.queue, true, a.deadline, a.now)],
            plans := st.plans[a.plan := plan.(status := Admitted, admittedInvocation := Some(a.invocation),
              supersededBy := None, blockedBy := None, nextAttemptAt := None)],
            resources := OpenRows(st.resources, a.invocation, plan.env, plan.selected))
      case _ => st.(plans := st.plans[a.plan := plan])
  }

  // ---------------------------------------------------------------------------------------------
  // The protocol

  /** A batch of events from a worker; its claim is checked once, before the events are recorded one by one. */
  datatype Report = Report(invocation: nat, worker: string, token: nat)

  /** `pending`: forced completions under way; `superseding`: plans created whose supersede is still to come;
      `reporting`: reports that have passed their fence and are still being recorded. */
  datatype State = State(store: Store, pending: multiset<Forced>, superseding: set<nat>, reporting: multiset<Report>)

  const INITIAL := State(Store(map[], map[], map[]), multiset{}, {}, multiset{})

  datatype Step =
    | CreateInvocation(id: nat, invocation: Invocation)
    | Claim(id: nat, worker: string, mode: Option<Mode>, queues: set<string>, token: nat, now: int)
    | Heartbeat(id: nat, worker: string, token: nat, now: int)
    | BeginReport(report: Report)
    | InsertSelected(report: Report, names: seq<string>)
    | NodeFinished(report: Report, uniqueId: string)
    | EndReport(report: Report)
    | RequestCancel(id: nat, now: int)
    | SweepTimedOut(localStaleAt: int, serverStaleAt: int, now: int)
    | CompleteByWorker(id: nat, worker: string, token: nat, completion: Completion, now: int)
    | Force(forced: Forced, now: int)
    | Abandon(forced: Forced)
    | CreatePlan(plan: nat, env: nat, selected: seq<string>)
    | SupersedeOthers(plan: nat)
    | AdmitPlan(admission: Admission)

  /**
   * New ids are fresh, a claim takes a claimable row; forces, supersedes and recordings follow what started them. A
   * caller that fails before its force, or never makes it, abandons the completion.
   */
  predicate Enabled(st: State, step: Step) {
    match step
    case CreateInvocation(id, inv) =>
      id !in st.store.invocations &&
      inv == NewInvocation(None, inv.env, inv.mode, inv.queue, inv.hasSpec, inv.claimDeadlineAt, inv.startedAt)
    case Claim(id, _, mode, queues, _, now) =>
      id in st.store.invocations && Claimable(st.store.invocations[id], mode, queues, now)
    case Force(f, _) => f in st.pending
    case Abandon(f) => f in st.pending
    case InsertSelected(report, _) => report in st.reporting
    case NodeFinished(report, _) => report in st.reporting
    case EndReport(report) => report in st.reporting
    case CreatePlan(p, _, _) => p !in st.store.plans
    case SupersedeOthers(p) => p in st.superseding && p in st.store.plans
    case AdmitPlan(a) =>
      a.invocation !in st.store.invocations &&
      (AdmissionOutcome(st.store, a) == IsBlocked ==> IsFirstConflict(st.store, a))
    case _ => true
  }

  /** Whether a worker call passes its fence. */
  predicate Accepted(st: Store, id: nat, worker: string, token: nat) {
    id in st.invocations && Held(st.invocations[id], worker, token)
  }

  /** The read that admits a report: the row is claimed by the worker under the token. A row that does not run has no
      token, so the read of the status before it refuses nothing more. */
  predicate ClaimMatches(st: Store, report: Report) {
    report.invocation in st.invocations &&
    st.invocations[report.invocation].claimedBy == Some(report.worker) &&
    st.invocations[report.invocation].leaseToken == Some(report.token)
  }

  function Apply(st: State, step: Step): State
    requires Enabled(st, step)
  {
    var db := st.store;
    match step
    case CreateInvocation(id, inv) => st.(store := db.(invocations := db.invocations[id := inv]))
    case Claim(id, worker, _, _, token, now) =>
      st.(store := db.(invocations := db.invocations[id := Claimed(db.invocations[id], worker, token, now)]))
    case Heartbeat(id, worker, token, now) =>
      if !Accepted(db, id, worker, token) then st
      else st.(store := db.(invocations := db.invocations[id := db.invocations[id].(lastHeartbeatAt := Some(now))]))
    case BeginReport(report) =>
      if ClaimMatches(db, report) then st.(reporting := st.reporting + multiset{report}) else st
    case InsertSelected(report, names) =>
      // The insert looks at no status, worker or token.
      var i := report.invocation;
      if i !in db.invocations || db.invocations[i].env.None? then st
      else st.(store := db.(resources := OpenRows(db.resources, i, db.invocations[i].env.value, names)))
    case NodeFinished(report, x) =>
      var key := ResourceKey(report.invocation, x);
      if key !in db.resources then st
      else st.(store := db.(resources := db.resources[key := db.resources[key].(open := false)]))
    case EndReport(report) => st.(reporting := st.reporting - multiset{report})
    case RequestCancel(id, now) =>
      if id !in db.invocations then st
      else
        var row := CancelRow(db.invocations[id], now);
        State(db.(invocations := db.invocations[id := row]),
          if row.status == Canceled && row.claimedBy.None? && row.exitCode.Some?
          then st.pending + multiset{Forced(id, Completion(Canceled, row.exitCode.value, row.error))} else st.pending,
          st.superseding, st.reporting)
    case SweepTimedOut(localStaleAt, serverStaleAt, now) =>
      State(Sweep(db, localStaleAt, serverStaleAt, now),
        st.pending + multiset(TimedOut(db.invocations, localStaleAt, serverStaleAt, now)), st.superseding, st.reporting)
    case CompleteByWorker(id, worker, token, c, now) => st.(store := Complete(db, id, worker, token, c, now))
    case Force(f, now) => st.(store := ForceComplete(db, f, now), pending := st.pending - multiset{f})
    case Abandon(f) => st.(pending := st.pending - multiset{f})
    case CreatePlan(p, env, selected) =>
      st.(store := db.(plans := db.plans[p := NewPlan(env, selected)]), superseding := st.superseding + {p})
    case SupersedeOthers(p) => st.(store := db.(plans := Supersede(db.plans, p)), superseding := st.superseding - {p})
    case AdmitPlan(a) => st.(store := Admit(db, a))
  }

  datatype Execution = Execution(steps: seq<Step>, states: seq<State>)

  ghost predicate StepAt(h: Execution, k: nat)
    requires |h.states| == |h.steps| + 1 && k < |h.steps|
  {
    Enabled(h.states[k], h.steps[k]) && h.states[k + 1] == Apply(h.states[k], h.steps[k])
  }

  ghost predicate Proceeds(h: Execution) {
    |h.states| == |h.steps| + 1 && forall k :: 0 <= k < |h.steps| ==> StepAt(h, k)
  }

  /** An execution from the empty tables. */
  ghost predicate Runs(h: Execution) {
    Proceeds(h) && h.states[0] == INITIAL
  }

  /** The execution with one more step. */
  ghost function Then(h: Execution, step: Step): Execution
    requires Proceeds(h) && Enabled(h.states[|h.steps|], step)
  {
    Execution(h.steps + [step], h.states + [Apply(h.states[|h.steps|], step)])
  }

  lemma ThenProceeds(h: Execution, step: Step)
    requires Proceeds(h) && Enabled(h.states[|h.steps|], step)
    ensures Proceeds(Then(h, step))
  {
    forall k | 0 <= k < |h.steps| + 1 ensures StepAt(Then(h, step), k) {
      if k < |h.steps| { assert StepAt(h, k); }
    }
  }
}
