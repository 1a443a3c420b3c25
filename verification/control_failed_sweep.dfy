/**
 * A sweep that times out two invocations. The first is forced; the admission of the plan that it blocked cannot prepare
 * its run; so the request fails, and never forces the second.
 */
module ControlFailedSweep {
  import opened Common
  import opened ControlPlane
  import opened ControlRowSteps
  import opened ControlSettlement
  import opened ControlRows
  import opened ControlLateRows
  import opened ControlExamples

  const DEADLINE := Some(5)

  const FIRST := Forced(1, NOT_CLAIMED)
  const SECOND := Forced(0, NOT_CLAIMED)

  const THIRD := Start(2, DEADLINE)

  function Expired(p: nat, env: nat): Invocation {
    Finish(Waiting(p, env, DEADLINE), NOT_CLAIMED, 6)
  }

  function BlockedPlan(env: nat, x: string): Plan {
    NewPlan(env, [x]).(status := Blocked, blockedBy := Some(1))
  }

  /** Invocation 0 works on `x` in `e`, invocation 1 on `y` in `d`, where plan 2 waits for it. */
  function Rows(e: nat, x: string, d: nat, y: string, yOpen: bool): map<ResourceKey, Resource> {
    map[ResourceKey(0, x) := Resource(e, true), ResourceKey(1, y) := Resource(d, yOpen)]
  }

  function BothWaiting(e: nat, x: string, d: nat, y: string, third: Plan): Store {
    Store(map[0 := Waiting(0, e, DEADLINE), 1 := Waiting(1, d, DEADLINE)],
      map[0 := Going(0, e, x), 1 := Going(1, d, y), 2 := third], Rows(e, x, d, y, true))
  }

  function BothExpired(e: nat, x: string, d: nat, y: string): Store {
    BothWaiting(e, x, d, y, BlockedPlan(d, y)).(invocations := map[0 := Expired(0, e), 1 := Expired(1, d)])
  }

  /** The first time-out is forced, the second is not. */
  function OneForced(e: nat, x: string, d: nat, y: string): Store {
    Store(map[0 := Expired(0, e), 1 := Expired(1, d)],
      map[0 := Going(0, e, x), 1 := CompletePlan(Going(1, d, y), Failed, 7), 2 := BlockedPlan(d, y)],
      Rows(e, x, d, y, false))
  }

  function With(st: Store, pending: multiset<Forced>): State {
    State(st, pending, {0, 1, 2}, multiset{})
  }

  lemma ThirdConflicts(e: nat, x: string, d: nat, y: string)
    requires e != d
    ensures Conflicts(BothWaiting(e, x, d, y, NewPlan(d, [y])), 2) == {1}
  {
    var st := BothWaiting(e, x, d, y, NewPlan(d, [y]));
    var row := ResourceKey(1, y);
    assert [y][0] in [y] && row.uniqueId in st.plans[2].selected;
    assert row in st.resources && st.resources[row].open && st.resources[row].env == d;
  }

  lemma ThirdBlocks(e: nat, x: string, d: nat, y: string)
    requires e != d
    ensures Steps(With(BothWaiting(e, x, d, y, NewPlan(d, [y])), multiset{}), AdmitPlan(THIRD.(blocker := 1)),
      With(BothWaiting(e, x, d, y, BlockedPlan(d, y)), multiset{}))
  {
    var st, a := BothWaiting(e, x, d, y, NewPlan(d, [y])), THIRD.(blocker := 1);
    assert ReplannedStore(st, a) == st by { assert st.plans[2 := st.plans[2]] == st.plans; }
    ThirdConflicts(e, x, d, y);
    assert Admit(st, a).plans == BothWaiting(e, x, d, y, BlockedPlan(d, y)).plans;
  }

  lemma SweepEndsBoth(e: nat, x: string, d: nat, y: string)
    ensures var st := BothWaiting(e, x, d, y, BlockedPlan(d, y));
      TimedOut(st.invocations, 0, 0, 6) == {FIRST, SECOND} && Sweep(st, 0, 0, 6) == BothExpired(e, x, d, y)
  {
    var st := BothWaiting(e, x, d, y, BlockedPlan(d, y));
    assert ClaimExpired(Waiting(0, e, DEADLINE), 6) && ClaimExpired(Waiting(1, d, DEADLINE), 6);
    assert Sweep(st, 0, 0, 6).invocations == BothExpired(e, x, d, y).invocations;
  }

  lemma BothExpire(e: nat, x: string, d: nat, y: string)
    ensures Steps(With(BothWaiting(e, x, d, y, BlockedPlan(d, y)), multiset{}), SweepTimedOut(0, 0, 6),
      With(BothExpired(e, x, d, y), multiset{FIRST, SECOND}))
  {
    SweepEndsBoth(e, x, d, y);
    assert multiset{} + multiset({FIRST, SECOND}) == multiset{FIRST, SECOND};
  }

  lemma FirstIsForced(e: nat, x: string, d: nat, y: string)
    ensures Steps(With(BothExpired(e, x, d, y), multiset{FIRST, SECOND}), Force(FIRST, 7),
      With(OneForced(e, x, d, y), multiset{SECOND}))
  {
    var st := BothExpired(e, x, d, y);
    assert multiset{FIRST, SECOND} - multiset{FIRST} == multiset{SECOND};
    var done := ForceComplete(st, FIRST, 7);
    assert done.resources == Rows(e, x, d, y, false);
    assert done.invocations == st.invocations;
    assert done.plans == OneForced(e, x, d, y).plans;
  }

  lemma AdmissionFails(e: nat, x: string, d: nat, y: string)
    requires e != d
    ensures Steps(With(OneForced(e, x, d, y), multiset{SECOND}), AdmitPlan(THIRD.(prepares := false)),
      With(OneForced(e, x, d, y), multiset{SECOND}))
    ensures AdmissionOutcome(OneForced(e, x, d, y), THIRD.(prepares := false)) == NotPrepared
  {
    var st, a := OneForced(e, x, d, y), THIRD.(prepares := false);
    assert st.plans[2 := st.plans[2]] == st.plans;
    assert ReplannedStore(st, a) == st;
    assert Conflicts(st, 2) == {};
  }

  // ---------------------------------------------------------------------------------------------
  // The execution, two steps at a time

  function OnePlan(e: nat, x: string): State {
    State(Store(map[], map[0 := NewPlan(e, [x])], map[]), multiset{}, {0}, multiset{})
  }

  function OneStarted(e: nat, x: string): State {
    State(Store(map[0 := Waiting(0, e, DEADLINE)], map[0 := Going(0, e, x)],
      map[ResourceKey(0, x) := Resource(e, true)]), multiset{}, {0}, multiset{})
  }

  function TwoPlans(e: nat, x: string, d: nat, y: string): State {
    State(Store(map[0 := Waiting(0, e, DEADLINE)], map[0 := Going(0, e, x), 1 := NewPlan(d, [y])],
      map[ResourceKey(0, x) := Resource(e, true)]), multiset{}, {0, 1}, multiset{})
  }

  function TwoStarted(e: nat, x: string, d: nat, y: string): State {
    State(Store(map[0 := Waiting(0, e, DEADLINE), 1 := Waiting(1, d, DEADLINE)],
      map[0 := Going(0, e, x), 1 := Going(1, d, y)], Rows(e, x, d, y, true)), multiset{}, {0, 1}, multiset{})
  }

  lemma FirstStarts(e: nat, x: string) returns (h: Execution)
    ensures Runs(h) && |h.steps| == 2 && h.states[2] == OneStarted(e, x)
  {
    h := Execution([], [INITIAL]);
    h := Extend(h, CreatePlan(0, e, [x]), OnePlan(e, x));
    PlanStarts(OnePlan(e, x), 0, e, x, DEADLINE);
    h := Extend(h, AdmitPlan(Start(0, DEADLINE)), OneStarted(e, x));
  }

  lemma SecondStarts(e: nat, x: string, d: nat, y: string) returns (h: Execution)
    requires e != d
    ensures Runs(h) && |h.steps| == 4 && h.states[4] == TwoStarted(e, x, d, y)
  {
    h := FirstStarts(e, x);
    h := Extend(h, CreatePlan(1, d, [y]), TwoPlans(e, x, d, y));
    PlanStarts(TwoPlans(e, x, d, y), 1, d, y, DEADLINE);
    h := Extend(h, AdmitPlan(Start(1, DEADLINE)), TwoStarted(e, x, d, y));
  }

  lemma ThirdIsBlocked(e: nat, x: string, d: nat, y: string) returns (h: Execution)
    requires e != d
    ensures Runs(h) && |h.steps| == 6
    ensures h.states[6] == With(BothWaiting(e, x, d, y, BlockedPlan(d, y)), multiset{})
  {
    h := SecondStarts(e, x, d, y);
    h := Extend(h, CreatePlan(2, d, [y]), With(BothWaiting(e, x, d, y, NewPlan(d, [y])), multiset{}));
    ThirdBlocks(e, x, d, y);
    h := Extend(h, AdmitPlan(THIRD.(blocker := 1)), With(BothWaiting(e, x, d, y, BlockedPlan(d, y)), multiset{}));
  }

  lemma OneIsForced(e: nat, x: string, d: nat, y: string) returns (h: Execution)
    requires e != d
    ensures Runs(h) && |h.steps| == 8 && h.steps[6] == SweepTimedOut(0, 0, 6) && h.steps[7] == Force(FIRST, 7)
    ensures h.states[8] == With(OneForced(e, x, d, y), multiset{SECOND})
  {
    h := ThirdIsBlocked(e, x, d, y);
    BothExpire(e, x, d, y);
    h := Extend(h, SweepTimedOut(0, 0, 6), With(BothExpired(e, x, d, y), multiset{FIRST, SECOND}));
    FirstIsForced(e, x, d, y);
    h := Extend(h, Force(FIRST, 7), With(OneForced(e, x, d, y), multiset{SECOND}));
  }

  lemma SecondIsAbandoned(e: nat, x: string, d: nat, y: string) returns (h: Execution)
    requires e != d
    ensures Runs(h) && |h.steps| == 10 && h.steps[6] == SweepTimedOut(0, 0, 6) && h.steps[7] == Force(FIRST, 7)
    ensures h.steps[8] == AdmitPlan(THIRD.(prepares := false)) && h.steps[9] == Abandon(SECOND)
    ensures h.states[8] == h.states[9] == With(OneForced(e, x, d, y), multiset{SECOND})
    ensures h.states[10] == With(OneForced(e, x, d, y), multiset{})
  {
    h := OneIsForced(e, x, d, y);
    AdmissionFails(e, x, d, y);
    h := Extend(h, AdmitPlan(THIRD.(prepares := false)), With(OneForced(e, x, d, y), multiset{SECOND}));
    assert multiset{SECOND} - multiset{SECOND} == multiset{};
    h := Extend(h, Abandon(SECOND), With(OneForced(e, x, d, y), multiset{}));
  }

  /**
   * For any two environments and resources: an execution after which the second invocation has timed out and awaits
   * nothing, its plan is still admitted, and its row is open.
   */
  lemma FailedAdmissionHangs(e: nat, x: string, d: nat, y: string) returns (h: Execution)
    requires e != d
    ensures Runs(h) && |h.steps| == 10 && h.steps[6] == SweepTimedOut(0, 0, 6) && h.steps[7] == Force(FIRST, 7)
    ensures h.steps[8].AdmitPlan? && AdmissionOutcome(h.states[8].store, h.steps[8].admission) == NotPrepared
    ensures Abandons(h.states[9], h.steps[9], 0) && !Active(h.states[10], 0)
    ensures 0 in h.states[10].store.invocations && h.states[10].store.invocations[0].status == Failed
    ensures 0 in h.states[10].store.plans && h.states[10].store.plans[0].status == Admitted
    ensures ResourceKey(0, x) in h.states[10].store.resources && h.states[10].store.resources[ResourceKey(0, x)].open
  {
    h := SecondIsAbandoned(e, x, d, y);
    AdmissionFails(e, x, d, y);
  }

  /** However such an execution goes on: the second invocation awaits nothing, its plan stays admitted, and only a
      finish event of its node ever closes its row. */
  lemma HangsForEver(e: nat, x: string, d: nat, y: string, h: Execution, k: nat)
    requires Runs(h) && 9 < k <= |h.steps| && h.steps[9] == Abandon(SECOND)
    requires h.states[9] == With(OneForced(e, x, d, y), multiset{SECOND})
    ensures !Active(h.states[k], 0)
    ensures 0 in h.states[k].store.plans && h.states[k].store.plans[0] == Going(0, e, x)
    ensures OpenAt(h, k, ResourceKey(0, x)) || NodeFinishes(h, 10, k, ResourceKey(0, x))
  {
    assert Abandons(h.states[9], h.steps[9], 0);
    AbandonedTimeoutIsFinal(h, 9, k, 0);
    AbandonedPlanStays(h, 9, k, 0, 0);
    AbandonedRowStaysOpen(h, 9, k, ResourceKey(0, x));
  }
}
