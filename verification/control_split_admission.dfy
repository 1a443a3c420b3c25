/**
 * The parts of one admission. The plan is decided on under the lease of its environment; after the lease is released
 * its invocation is created, and then the plan is marked admitted. Undisturbed they are the admission of the protocol;
 * what other calls do between them, nothing checks.
 */
module ControlSplitAdmission {
  import opened Common
  import opened ControlPlane
  import opened ControlSafety

  /** The second part: the invocation of the decided plan. */
  function Create(st: Store, a: Admission): Store
    requires a.plan in st.plans
  {
    st.(invocations := st.invocations[a.invocation :=
      NewInvocation(Some(a.plan), Some(st.plans[a.plan].env), Server, a.queue, true, a.deadline, a.now)])
  }

  predicate Markable(status: PlanStatus) {
    Admissible(status) || status == Admitted
  }

  /** The third part: the plan is marked if it can be; the rows are inserted whether it is or not. */
  function Mark(st: Store, p: nat, i: nat): Store
    requires p in st.plans
  {
    var plan := st.plans[p];
    st.(plans := if Markable(plan.status) then st.plans[p := plan.(status := Admitted, admittedInvocation := Some(i),
          supersededBy := None, blockedBy := None, nextAttemptAt := None)] else st.plans,
        resources := if i in st.invocations then OpenRows(st.resources, i, plan.env, plan.selected) else st.resources)
  }

  /** Undisturbed, the parts make up the protocol's step. */
  lemma PartsAreAdmission(st: Store, a: Admission)
    requires AdmissionOutcome(st, a) == Started && a.invocation !in st.invocations
    ensures Mark(Create(ReplannedStore(st, a), a), a.plan, a.invocation) == Admit(st, a)
  {
    var plan := Replanned(st.plans[a.plan], a.replan, a.now);
    var marked := plan.(status := Admitted, admittedInvocation := Some(a.invocation), supersededBy := None,
      blockedBy := None, nextAttemptAt := None);
    assert st.plans[a.plan := plan][a.plan := marked] == st.plans[a.plan := marked];
  }

  /** Marking keeps executing plans apart exactly when none overlaps the plan at that time: what was decided before, by
      the conflicts found then, does not matter. */
  lemma MarkKeepsExclusionIff(st: Store, p: nat, i: nat)
    requires Exclusive(st) && p in st.plans && Markable(st.plans[p].status)
    requires i in st.invocations && st.invocations[i].status == Running
    ensures Exclusive(Mark(st, p, i)) <==> forall q ::
      q != p && Executing(st, q) && st.plans[q].env == st.plans[p].env ==>
        !Overlap(st.plans[q].selected, st.plans[p].selected)
  {
    var st' := Mark(st, p, i);
    forall q | q != p ensures Executing(st', q) <==> Executing(st, q) {}
    assert Executing(st', p);
    if forall q :: q != p && Executing(st, q) && st.plans[q].env == st.plans[p].env ==>
      !Overlap(st.plans[q].selected, st.plans[p].selected)
    {
      forall a, b | a != b && Executing(st', a) && Executing(st', b) && st'.plans[a].env == st'.plans[b].env
        ensures !Overlap(st'.plans[a].selected, st'.plans[b].selected)
      {
        OverlapSymmetric(st'.plans[a].selected, st'.plans[b].selected);
      }
    }
  }

  function Admitting(p: nat): Admission {
    Admission(p, Keep, true, p, "queue", None, 0, 0)
  }

  function Pending(env: nat, x: string): Store {
    Store(map[], map[0 := NewPlan(env, [x])], map[])
  }

  /** The first plan has been decided on and its invocation created; then a second is created and supersedes it. */
  function SupersededAfter(env: nat, x: string): Store {
    var st := Create(Pending(env, x), Admitting(0));
    st.(plans := Supersede(st.plans[1 := NewPlan(env, [x])], 1))
  }

  lemma SecondIsDecided(env: nat, x: string)
    ensures AdmissionOutcome(Pending(env, x), Admitting(0)) == Started
    ensures AdmissionOutcome(SupersededAfter(env, x), Admitting(1)) == Started
    ensures SupersededAfter(env, x).plans[0].status == Superseded
    ensures SupersededAfter(env, x).plans[1] == NewPlan(env, [x])
  {
    var st := SupersededAfter(env, x);
    assert ReplannedStore(Pending(env, x), Admitting(0)).plans[0] == NewPlan(env, [x]);
    assert Conflicts(ReplannedStore(Pending(env, x), Admitting(0)), 0) == {};
    assert ReplannedStore(st, Admitting(1)).plans[1] == NewPlan(env, [x]);
    assert Conflicts(ReplannedStore(st, Admitting(1)), 1) == {};
  }

  /**
   * For any environment and resource: a plan superseded between the parts of its admission. No conflict is found for
   * the second plan, so both invocations run, with open rows on the same resource; and the superseded plan ends a
   * second time, when its invocation does.
   */
  lemma SupersededBetween(env: nat, x: string) returns (st: Store)
    ensures st == Mark(Mark(Create(SupersededAfter(env, x), Admitting(1)), 0, 0), 1, 1)
    ensures 0 in st.invocations && 1 in st.invocations
    ensures st.invocations[0].status == Running && st.invocations[1].status == Running
    ensures ResourceKey(0, x) in st.resources && st.resources[ResourceKey(0, x)] == Resource(env, true)
    ensures ResourceKey(1, x) in st.resources && st.resources[ResourceKey(1, x)] == Resource(env, true)
    ensures 0 in st.plans && st.plans[0].status == Superseded && st.invocations[0].planId == Some(0)
    ensures forall now: int :: SideEffects(st, 0, Succeeded, now).plans[0].status == PlanCompleted
  {
    SecondIsDecided(env, x);
    st := Mark(Mark(Create(SupersededAfter(env, x), Admitting(1)), 0, 0), 1, 1);
    assert [x][0] in [x];
  }
}
