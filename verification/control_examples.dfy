/** Executions in which something goes other than one might expect. */
module ControlExamples {
  import opened Common
  import opened ControlPlane
  import opened ControlSafety
  import opened ControlRowSteps
  import opened ControlRows
  import Retry

  /** A step takes one state to the next. */
  ghost predicate Steps(st: State, step: Step, st': State) {
    Enabled(st, step) && Apply(st, step) == st'
  }

  /** One more step of an execution. */
  lemma Extend(h: Execution, step: Step, st': State) returns (more: Execution)
    requires Runs(h) && Steps(h.states[|h.steps|], step, st')
    ensures Runs(more) && more.steps == h.steps + [step] && more.states == h.states + [st']
  {
    ThenProceeds(h, step);
    more := Then(h, step);
  }

  // ---------------------------------------------------------------------------------------------
  // A report that is recorded too late: it passes its fence, the invocation is timed out and its completion
  // forced, and then the report inserts its rows.

  const REPORT := Report(0, "worker", 7)

  const LOST := Forced(0, HEARTBEAT_LOST)

  function Created(env: nat): Invocation {
    NewInvocation(None, Some(env), Server, "queue", true, None, 0)
  }

  function Working(env: nat): Invocation {
    Claimed(Created(env), "worker", 7, 0)
  }

  function TimedOutRow(env: nat): Invocation {
    Finish(Working(env), HEARTBEAT_LOST, 1)
  }

  /** The state with one invocation, and no row, plan or force. */
  function Alone(inv: Invocation, reporting: multiset<Report>): State {
    State(Store(map[0 := inv], map[], map[]), multiset{}, {}, reporting)
  }

  function LateRows(env: nat, x: string): map<ResourceKey, Resource> {
    map[ResourceKey(0, x) := Resource(env, true)]
  }

  lemma SweepsWorker(env: nat)
    ensures TimedOut(map[0 := Working(env)], 1, 1, 1) == {LOST}
  {
    assert HeartbeatExpired(Working(env), 1, 1) && !ClaimExpired(Working(env), 1);
  }

  lemma LateClaim(env: nat)
    ensures Steps(INITIAL, CreateInvocation(0, Created(env)), Alone(Created(env), multiset{}))
    ensures Steps(Alone(Created(env), multiset{}), Claim(0, "worker", None, {"queue"}, 7, 0),
      Alone(Working(env), multiset{}))
    ensures Steps(Alone(Working(env), multiset{}), BeginReport(REPORT), Alone(Working(env), multiset{REPORT}))
  {
  }

  lemma LateSweep(env: nat)
    ensures Steps(Alone(Working(env), multiset{REPORT}), SweepTimedOut(1, 1, 1),
      Alone(TimedOutRow(env), multiset{REPORT}).(pending := multiset{LOST}))
  {
    SweepsWorker(env);
    var st := Alone(Working(env), multiset{REPORT});
    assert Sweep(st.store, 1, 1, 1).invocations == map[0 := TimedOutRow(env)];
    assert multiset{} + multiset({LOST}) == multiset{LOST};
  }

  lemma LateForce(env: nat)
    ensures Steps(Alone(TimedOutRow(env), multiset{REPORT}).(pending := multiset{LOST}), Force(LOST, 2),
      Alone(TimedOutRow(env), multiset{REPORT}))
  {
    var st := Alone(TimedOutRow(env), multiset{REPORT}).(pending := multiset{LOST});
    assert ForceComplete(st.store, LOST, 2).invocations == st.store.invocations;
    assert CloseResources(map[], 0) == map[];
    assert st.pending - multiset{LOST} == multiset{};
  }

  lemma LateInsert(env: nat, x: string)
    ensures var st := Alone(TimedOutRow(env), multiset{REPORT});
      Steps(st, InsertSelected(REPORT, [x]), st.(store := st.store.(resources := LateRows(env, x))))
  {
    assert OpenRows(map[], 0, env, [x]) == LateRows(env, x) by {
      assert [x][0] in [x];
    }
  }

  /** The worker's report has passed its fence, and its invocation has been timed out and forced. */
  lemma ReportOutlives(env: nat) returns (h: Execution)
    ensures Runs(h) && |h.steps| == 5 && h.states[5] == Alone(TimedOutRow(env), multiset{REPORT})
  {
    h := Execution([], [INITIAL]);
    LateClaim(env);
    h := Extend(h, CreateInvocation(0, Created(env)), Alone(Created(env), multiset{}));
    h := Extend(h, Claim(0, "worker", None, {"queue"}, 7, 0), Alone(Working(env), multiset{}));
    h := Extend(h, BeginReport(REPORT), Alone(Working(env), multiset{REPORT}));
    LateSweep(env);
    h := Extend(h, SweepTimedOut(1, 1, 1), Alone(TimedOutRow(env), multiset{REPORT}).(pending := multiset{LOST}));
    LateForce(env);
    h := Extend(h, Force(LOST, 2), Alone(TimedOutRow(env), multiset{REPORT}));
  }

  /**
   * For any environment and resource: an execution after which the row is open for an invocation that has failed and
   * awaits nothing, and blocks every admission of a plan for the resource.
   */
  lemma LateReportBlocks(env: nat, x: string) returns (h: Execution)
    ensures Runs(h) && |h.steps| == 7 && InsertedAt(h, 5, ResourceKey(0, x)) && OpenAt(h, 7, ResourceKey(0, x))
    ensures 0 in h.states[7].store.invocations && h.states[7].store.invocations[0].status == Failed
    ensures !Active(h.states[6], 0) && !Active(h.states[7], 0) && IsPending(h.states[7].store, 0)
    ensures forall a: Admission :: a.plan == 0 && a.replan == Keep ==>
      AdmissionOutcome(h.states[7].store, a) == IsBlocked
  {
    h := ReportOutlives(env);
    var ended := Alone(TimedOutRow(env), multiset{REPORT});
    LateInsert(env, x);
    h := Extend(h, InsertSelected(REPORT, [x]), ended.(store := ended.store.(resources := LateRows(env, x))));
    var last := LateState(env, x);
    h := Extend(h, CreatePlan(0, env, [x]), last);
    LateBlocks(last.store, env, x);
  }

  function LateState(env: nat, x: string): State {
    State(Store(map[0 := TimedOutRow(env)], map[0 := NewPlan(env, [x])], LateRows(env, x)), multiset{}, {0},
      multiset{REPORT})
  }

  lemma LateBlocks(st: Store, env: nat, x: string)
    requires st == Store(map[0 := TimedOutRow(env)], map[0 := NewPlan(env, [x])], LateRows(env, x))
    ensures forall a: Admission :: a.plan == 0 && a.replan == Keep ==> AdmissionOutcome(st, a) == IsBlocked
  {
    var row := ResourceKey(0, x);
    assert row in st.resources && st.resources[row].open;
    forall a: Admission | a.plan == 0 && a.replan == Keep ensures AdmissionOutcome(st, a) == IsBlocked {
      assert ReplannedStore(st, a).plans[0] == st.plans[0];
      assert row.uniqueId in st.plans[0].selected;
      assert row.invocation in Conflicts(ReplannedStore(st, a), 0);
    }
  }

  // ---------------------------------------------------------------------------------------------
  // A plan starts

  function Start(p: nat, deadline: Option<int>): Admission {
    Admission(p, Keep, true, p, "queue", deadline, 0, 0)
  }

  function Waiting(p: nat, env: nat, deadline: Option<int>): Invocation {
    NewInvocation(Some(p), Some(env), Server, "queue", true, deadline, 0)
  }

  function Going(p: nat, env: nat, x: string): Plan {
    NewPlan(env, [x]).(status := Admitted, admittedInvocation := Some(p))
  }

  /** A plan whose resource no one holds starts. */
  lemma PlanStarts(st: State, p: nat, env: nat, x: string, deadline: Option<int>)
    requires p in st.store.plans && st.store.plans[p] == NewPlan(env, [x]) && p !in st.store.invocations
    requires Conflicts(st.store, p) == {} && ResourceKey(p, x) !in st.store.resources
    ensures Steps(st, AdmitPlan(Start(p, deadline)), st.(store := Store(
      st.store.invocations[p := Waiting(p, env, deadline)], st.store.plans[p := Going(p, env, x)],
      st.store.resources[ResourceKey(p, x) := Resource(env, true)])))
  {
    assert ReplannedStore(st.store, Start(p, deadline)) == st.store by {
      assert st.store.plans[p := st.store.plans[p]] == st.store.plans;
    }
    assert AdmissionOutcome(st.store, Start(p, deadline)) == Started;
    assert OpenRows(st.store.resources, p, env, [x]) ==
      st.store.resources[ResourceKey(p, x) := Resource(env, true)] by {
      assert [x][0] in [x];
    }
  }

  // ---------------------------------------------------------------------------------------------
  // A second cancel: the completion is forced again, and the plan's failure counted again.

  const CANCEL := Forced(0, CANCELED)

  function WithPlan(inv: Invocation, plan: Plan, x: string, open: bool, pending: multiset<Forced>): State {
    State(Store(map[0 := inv], map[0 := plan], map[ResourceKey(0, x) := Resource(plan.env, open)]), pending, {0},
      multiset{})
  }

  /** Cancelling, or cancelling again, hands the completion on to be forced. */
  lemma CancelHandsOn(env: nat, x: string, inv: Invocation, plan: Plan, open: bool, now: int)
    requires inv == Waiting(0, env, None) || inv == CancelRow(Waiting(0, env, None), 1)
    ensures Steps(WithPlan(inv, plan, x, open, multiset{}), RequestCancel(0, now),
      WithPlan(CancelRow(inv, now), plan, x, open, multiset{CANCEL}))
  {
    assert multiset{} + multiset{CANCEL} == multiset{CANCEL};
  }

  /** Forcing it counts the plan's failure, from any count. */
  lemma ForceCounts(env: nat, x: string, canceled: Invocation, plan: Plan, open: bool, now: int)
    requires canceled == CancelRow(Waiting(0, env, None), 1) && plan.env == env
    ensures Steps(WithPlan(canceled, plan, x, open, multiset{CANCEL}), Force(CANCEL, now),
      WithPlan(canceled, CompletePlan(plan, Canceled, now), x, false, multiset{}))
  {
    var st := WithPlan(canceled, plan, x, open, multiset{CANCEL});
    assert multiset{CANCEL} - multiset{CANCEL} == multiset{};
    var done := ForceComplete(st.store, CANCEL, now);
    assert done.resources == map[ResourceKey(0, x) := Resource(env, false)];
    assert done.invocations == map[0 := canceled];
    assert done.plans == map[0 := CompletePlan(plan, Canceled, now)];
  }

  lemma PlanStarted(env: nat, x: string) returns (h: Execution)
    ensures Runs(h) && |h.steps| == 2
    ensures h.states[2] == WithPlan(Waiting(0, env, None), Going(0, env, x), x, true, multiset{})
  {
    h := Execution([], [INITIAL]);
    var created := State(Store(map[], map[0 := NewPlan(env, [x])], map[]), multiset{}, {0}, multiset{});
    h := Extend(h, CreatePlan(0, env, [x]), created);
    PlanStarts(created, 0, env, x, None);
    h := Extend(h, AdmitPlan(Start(0, None)), WithPlan(Waiting(0, env, None), Going(0, env, x), x, true, multiset{}));
  }

  lemma CanceledOnce(env: nat, x: string) returns (h: Execution)
    ensures Runs(h) && |h.steps| == 4 && h.steps[2] == RequestCancel(0, 1) && h.steps[3] == Force(CANCEL, 2)
    ensures h.states[4] ==
      WithPlan(CancelRow(Waiting(0, env, None), 1), CompletePlan(Going(0, env, x), Canceled, 2), x, false, multiset{})
  {
    h := PlanStarted(env, x);
    var inv, plan := Waiting(0, env, None), Going(0, env, x);
    CancelHandsOn(env, x, inv, plan, true, 1);
    h := Extend(h, RequestCancel(0, 1), WithPlan(CancelRow(inv, 1), plan, x, true, multiset{CANCEL}));
    ForceCounts(env, x, CancelRow(inv, 1), plan, true, 2);
    h := Extend(h, Force(CANCEL, 2),
      WithPlan(CancelRow(inv, 1), CompletePlan(plan, Canceled, 2), x, false, multiset{}));
  }

  lemma CanceledTwice(env: nat, x: string) returns (h: Execution)
    ensures Runs(h) && |h.steps| == 6 && h.steps[2] == RequestCancel(0, 1) && h.steps[4] == RequestCancel(0, 3)
    ensures var plan := CompletePlan(Going(0, env, x), Canceled, 2);
      && h.states[4].store.plans == map[0 := plan] &&
        h.states[6].store.plans == map[0 := CompletePlan(plan, Canceled, 4)]
  {
    h := CanceledOnce(env, x);
    var canceled, once := CancelRow(Waiting(0, env, None), 1), CompletePlan(Going(0, env, x), Canceled, 2);
    assert CancelRow(canceled, 3) == canceled;
    CancelHandsOn(env, x, canceled, once, false, 3);
    h := Extend(h, RequestCancel(0, 3), WithPlan(canceled, once, x, false, multiset{CANCEL}));
    ForceCounts(env, x, canceled, once, false, 4);
    h := Extend(h, Force(CANCEL, 4), WithPlan(canceled, CompletePlan(once, Canceled, 4), x, false, multiset{}));
  }

  /** For any environment and resource: an execution that ends one plan once, and counts two failures for it. */
  lemma SecondCancelCountsAgain(env: nat, x: string) returns (h: Execution)
    ensures Runs(h) && |h.steps| == 6 && h.steps[2] == RequestCancel(0, 1) && h.steps[4] == RequestCancel(0, 3)
    ensures 0 in h.states[4].store.plans && 0 in h.states[6].store.plans
    ensures h.states[4].store.plans[0].status == h.states[6].store.plans[0].status == PlanCanceled
    ensures h.states[4].store.plans[0].failureCount == 1 && h.states[6].store.plans[0].failureCount == 2
    ensures h.states[4].store.plans[0].nextAttemptAt == Some(7) && h.states[6].store.plans[0].nextAttemptAt == Some(14)
  {
    h := CanceledTwice(env, x);
    FirstDelays();
  }

  lemma FirstDelays()
    ensures Retry.Backoff(1) == 5 && Retry.Backoff(2) == 10
  {
    Retry.SmallPowers();
  }

  // ---------------------------------------------------------------------------------------------
  // A cancel that is not followed by its force: the page that cancels an invocation drops what the update returns.

  /** For any environment and resource: the invocation has been canceled and awaits nothing, its plan is still
      admitted, and its row is open. */
  lemma PageCancelHangs(env: nat, x: string) returns (h: Execution)
    ensures Runs(h) && |h.steps| == 4 && h.steps[2] == RequestCancel(0, 1) && Abandons(h.states[3], h.steps[3], 0)
    ensures h.states[4] == WithPlan(CancelRow(Waiting(0, env, None), 1), Going(0, env, x), x, true, multiset{})
    ensures h.states[4].store.invocations[0].status == Canceled && !Active(h.states[4], 0)
  {
    h := PlanStarted(env, x);
    var inv, plan := Waiting(0, env, None), Going(0, env, x);
    CancelHandsOn(env, x, inv, plan, true, 1);
    h := Extend(h, RequestCancel(0, 1), WithPlan(CancelRow(inv, 1), plan, x, true, multiset{CANCEL}));
    assert multiset{CANCEL} - multiset{CANCEL} == multiset{};
    h := Extend(h, Abandon(CANCEL), WithPlan(CancelRow(inv, 1), plan, x, true, multiset{}));
  }
}
