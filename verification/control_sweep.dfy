/**
 * The timeout sweep as one request carries it out: the sweep, then per timed-out row a forced completion and the
 * admission of what was blocked in its environment, up to the first admission that fails.
 */
module ControlSweep {
  import opened Common
  import opened ControlPlane
  import opened ControlSafety

  /** What an attempt to admit a plan meets outside the tables: whether it gets the lease of the environment, what
      replanning finds, whether the run can be prepared. */
  datatype Attempt = Attempt(leased: bool, replan: Replan, prepares: bool, queue: string, deadline: Option<int>)

  /** For some plan the attempt lacks the lease or cannot be prepared. */
  ghost predicate SomeFails(attempts: nat -> Attempt) {
    exists p :: !attempts(p).leased || !attempts(p).prepares
  }

  // ---------------------------------------------------------------------------------------------
  // Runs of the protocol

  /** The execution leads from one state to the other. */
  ghost predicate Leads(h: Execution, from: State, to: State) {
    Proceeds(h) && h.states[0] == from && h.states[|h.steps|] == to
  }

  lemma LeadsOn(h: Execution, from: State, mid: State, step: Step)
    requires Leads(h, from, mid) && Enabled(mid, step)
    ensures Leads(Then(h, step), from, Apply(mid, step)) && Then(h, step).steps == h.steps + [step]
  {
    ThenProceeds(h, step);
  }

  lemma {:induction false} InvAlong(h: Execution, from: State, k: nat)
    requires Proceeds(h) && h.states[0] == from && Inv(from) && k <= |h.steps|
    ensures Inv(h.states[k])
  {
    if k > 0 {
      InvAlong(h, from, k - 1);
      assert StepAt(h, k - 1);
      InvKept(h.states[k - 1], h.steps[k - 1]);
    }
  }

  function AbandonSteps(rest: seq<Forced>): seq<Step> {
    seq(|rest|, i requires 0 <= i < |rest| => Abandon(rest[i]))
  }

  ghost predicate NoneAbandoned(steps: seq<Step>) {
    forall s :: s in steps ==> !s.Abandon?
  }

  lemma AbandonedAreRest(steps: seq<Step>, timedOut: seq<Forced>, n: nat)
    requires NoneAbandoned(steps) && n <= |timedOut|
    requires forall i, j :: 0 <= i < j < |timedOut| ==> timedOut[i].invocation != timedOut[j].invocation
    ensures forall m :: 0 <= m < |timedOut| ==>
      (Abandon(timedOut[m]) in steps + AbandonSteps(timedOut[n..]) <==> n <= m)
  {
    forall m | 0 <= m < |timedOut|
      ensures Abandon(timedOut[m]) in steps + AbandonSteps(timedOut[n..]) <==> n <= m
    {
      if n <= m { assert AbandonSteps(timedOut[n..])[m - n] == Abandon(timedOut[m]); }
    }
  }

  lemma AbandonStepsOn(steps: seq<Step>, rest: seq<Forced>)
    requires rest != []
    ensures steps + AbandonSteps(rest) == steps + [Abandon(rest[0])] + AbandonSteps(rest[1..])
  {
  }

  lemma TakeFirst(pending: multiset<Forced>, rest: seq<Forced>)
    requires rest != []
    ensures rest[0] in pending + multiset(rest)
    ensures pending + multiset(rest) - multiset{rest[0]} == pending + multiset(rest[1..])
  {
    assert rest == [rest[0]] + rest[1..];
  }

  /** A caller that stops abandons the completions it still held. */
  lemma {:induction false} AbandonAll(h: Execution, from: State, mid: State, rest: seq<Forced>,
                                      pending: multiset<Forced>)
    returns (to: Execution)
    requires Leads(h, from, mid) && mid.pending == pending + multiset(rest)
    ensures Leads(to, from, mid.(pending := pending)) && to.steps == h.steps + AbandonSteps(rest)
    decreases |rest|
  {
    if rest == [] {
      to := h;
    } else {
      TakeFirst(pending, rest);
      AbandonStepsOn(h.steps, rest);
      LeadsOn(h, from, mid, Abandon(rest[0]));
      to := AbandonAll(Then(h, Abandon(rest[0])), from, Apply(mid, Abandon(rest[0])), rest[1..], pending);
    }
  }

  // ---------------------------------------------------------------------------------------------
  // What a step leaves alone

  /** The row stores the completion, none of its resource rows is open, and its plan has ended accordingly. */
  ghost predicate Settled(st: Store, f: Forced) {
    && f.invocation in st.invocations
    && (forall k :: k in st.resources && k.invocation == f.invocation ==> !st.resources[k].open)
    && var planId := st.invocations[f.invocation].planId;
       planId.Some? && planId.value in st.plans ==> st.plans[planId.value].status == PlanStatusOf(f.completion.status)
  }

  /** The two maps agree on the key. */
  ghost predicate SameAt<K, V>(a: map<K, V>, b: map<K, V>, k: K) {
    (k in a <==> k in b) && (k in a ==> a[k] == b[k])
  }

  /** The invocation's row, its resource rows and its plan are the same in both. */
  ghost predicate Untouched(a: Store, b: Store, i: nat) {
    && i in a.invocations && SameAt(a.invocations, b.invocations, i)
    && (forall x: string :: SameAt(a.resources, b.resources, ResourceKey(i, x)))
    && (a.invocations[i].planId.Some? ==> SameAt(a.plans, b.plans, a.invocations[i].planId.value))
  }

  lemma UntouchedOn(a: Store, b: Store, c: Store, i: nat)
    requires Untouched(a, b, i) && Untouched(b, c, i)
    ensures Untouched(a, c, i)
  {
  }

  lemma UntouchedSettled(a: Store, b: Store, f: Forced)
    requires Untouched(a, b, f.invocation)
    ensures Settled(a, f) <==> Settled(b, f)
  {
    forall k: ResourceKey | k.invocation == f.invocation ensures SameAt(a.resources, b.resources, k) {
      assert k == ResourceKey(f.invocation, k.uniqueId);
    }
  }

  /** An admission touches no invocation that is there, nor its plan, which is pending no more. */
  lemma AdmitLeaves(st: State, a: Admission, i: nat)
    requires Linked(st) && a.invocation !in st.store.invocations && i in st.store.invocations
    ensures Untouched(st.store, Admit(st.store, a), i)
  {
    assert LinksBack(st, i);
    AdmitInvocations(st.store, a);
  }

  lemma AdmitOtherPlans(st: Store, a: Admission)
    ensures forall q :: q in st.plans && q != a.plan ==> q in Admit(st, a).plans && Admit(st, a).plans[q] == st.plans[q]
  {
  }

  /** A forced completion touches no other invocation, as plans are not shared. */
  lemma ForceLeaves(st: State, f: Forced, now: int, i: nat)
    requires Linked(st) && f.invocation in st.store.invocations && i in st.store.invocations && i != f.invocation
    ensures Untouched(st.store, ForceComplete(st.store, f, now), i)
  {
    assert LinksBack(st, i) && LinksBack(st, f.invocation);
  }

  lemma ForceSettles(st: Store, f: Forced, now: int)
    requires f.invocation in st.invocations
    ensures Settled(ForceComplete(st, f, now), f)
  {
  }

  ghost predicate AllUntouched(a: Store, b: Store) {
    forall i :: i in a.invocations ==> Untouched(a, b, i)
  }

  /** The execution goes on from `h` with admissions only, and has touched no invocation that was there. */
  ghost predicate Admits(h: Execution, more: Execution, from: State, st: State, now: Store) {
    && Leads(more, from, st.(store := now)) && AllUntouched(st.store, now)
    && forall s :: s in more.steps ==> s in h.steps || s.AdmitPlan?
  }

  lemma AdmitOn(h: Execution, more: Execution, from: State, st: State, now: Store, a: Admission)
    returns (next: Execution)
    requires Admits(h, more, from, st, now) && Inv(from) && a.invocation !in now.invocations
    requires AdmissionOutcome(now, a) == IsBlocked ==> IsFirstConflict(now, a)
    ensures Admits(h, next, from, st, Admit(now, a))
    ensures forall q :: q in now.plans && q != a.plan ==>
      q in Admit(now, a).plans && Admit(now, a).plans[q] == now.plans[q]
  {
    LeadsOn(more, from, st.(store := now), AdmitPlan(a));
    next := Then(more, AdmitPlan(a));
    InvAlong(more, from, |more.steps|);
    forall i | i in st.store.invocations ensures Untouched(st.store, Admit(now, a), i) {
      AdmitLeaves(st.(store := now), a, i);
      UntouchedOn(st.store, now, Admit(now, a), i);
    }
    AdmitOtherPlans(now, a);
  }

  // ---------------------------------------------------------------------------------------------
  // The loop over the timed-out rows

  /** The first `n` timed-out rows are settled; the others are as the sweep left them. */
  ghost predicate SettledTo(swept: Store, st: Store, timedOut: seq<Forced>, n: nat) {
    forall m :: 0 <= m < |timedOut| ==>
      if m < n then Settled(st, timedOut[m]) else Untouched(swept, st, timedOut[m].invocation)
  }

  ghost predicate DistinctRows(st: Store, timedOut: seq<Forced>) {
    && (forall m :: 0 <= m < |timedOut| ==> timedOut[m].invocation in st.invocations)
    && (forall m, n :: 0 <= m < n < |timedOut| ==> timedOut[m].invocation != timedOut[n].invocation)
  }

  lemma AdmissionsKeepSettled(swept: Store, a: Store, b: Store, timedOut: seq<Forced>, n: nat)
    requires SettledTo(swept, a, timedOut, n) && AllUntouched(a, b)
    ensures SettledTo(swept, b, timedOut, n)
  {
    forall m | 0 <= m < |timedOut|
      ensures if m < n then Settled(b, timedOut[m]) else Untouched(swept, b, timedOut[m].invocation)
    {
      if m < n {
        UntouchedSettled(a, b, timedOut[m]);
      } else {
        UntouchedOn(swept, a, b, timedOut[m].invocation);
      }
    }
  }

  lemma ForceSettlesNext(swept: Store, st: State, timedOut: seq<Forced>, n: nat, now: int)
    requires Linked(st) && SettledTo(swept, st.store, timedOut, n) && n < |timedOut|
    requires DistinctRows(st.store, timedOut)
    ensures SettledTo(swept, ForceComplete(st.store, timedOut[n], now), timedOut, n + 1)
    ensures DistinctRows(ForceComplete(st.store, timedOut[n], now), timedOut)
  {
    var after := ForceComplete(st.store, timedOut[n], now);
    ForceSettles(st.store, timedOut[n], now);
    forall m | 0 <= m < |timedOut| && m != n
      ensures if m < n then Settled(after, timedOut[m]) else Untouched(swept, after, timedOut[m].invocation)
    {
      ForceLeaves(st, timedOut[n], now, timedOut[m].invocation);
      if m < n {
        UntouchedSettled(st.store, after, timedOut[m]);
      } else {
        UntouchedOn(swept, st.store, after, timedOut[m].invocation);
      }
    }
  }

  /**
   * The execution has swept, and holds the timed-out rows from `n` on: it has settled those before, left those after
   * as they were, and abandoned none.
   */
  ghost predicate Holds(h: Execution, from: State, st: Store, swept: Store, timedOut: seq<Forced>, n: nat) {
    && n <= |timedOut| && Leads(h, from, Holding(from, st, timedOut[n..])) && NoneAbandoned(h.steps)
    && SettledTo(swept, st, timedOut, n) && DistinctRows(st, timedOut)
  }

  ghost function Holding(from: State, st: Store, rest: seq<Forced>): State {
    from.(store := st, pending := from.pending + multiset(rest))
  }

  ghost predicate IsListing(st: Store, localStaleAt: int, serverStaleAt: int, now: int, timedOut: seq<Forced>) {
    && multiset(timedOut) == multiset(TimedOut(st.invocations, localStaleAt, serverStaleAt, now))
    && (forall f :: f in timedOut <==> f in TimedOut(st.invocations, localStaleAt, serverStaleAt, now))
    && (forall m, n :: 0 <= m < n < |timedOut| ==> timedOut[m] != timedOut[n])
  }

  lemma TimedOutOnce(st: Store, localStaleAt: int, serverStaleAt: int, now: int, f: Forced, g: Forced)
    requires f in TimedOut(st.invocations, localStaleAt, serverStaleAt, now) && f != g
    requires g in TimedOut(st.invocations, localStaleAt, serverStaleAt, now)
    ensures f.invocation in st.invocations && g.invocation in st.invocations && f.invocation != g.invocation
  {
  }

  lemma SweepIsUntouched(st: Store, localStaleAt: int, serverStaleAt: int, now: int, timedOut: seq<Forced>)
    requires IsListing(st, localStaleAt, serverStaleAt, now, timedOut)
    ensures var swept := Sweep(st, localStaleAt, serverStaleAt, now);
      SettledTo(swept, swept, timedOut, 0) && DistinctRows(swept, timedOut)
  {
    SweepInvocations(st, localStaleAt, serverStaleAt, now);
    forall m | 0 <= m < |timedOut| ensures timedOut[m].invocation in st.invocations {
      assert timedOut[m] in TimedOut(st.invocations, localStaleAt, serverStaleAt, now);
    }
    forall m, n | 0 <= m < n < |timedOut| ensures timedOut[m].invocation != timedOut[n].invocation {
      TimedOutOnce(st, localStaleAt, serverStaleAt, now, timedOut[m], timedOut[n]);
    }
  }

  lemma SweepHolds(from: State, localStaleAt: int, serverStaleAt: int, now: int, timedOut: seq<Forced>)
    returns (h: Execution)
    requires IsListing(from.store, localStaleAt, serverStaleAt, now, timedOut)
    ensures var swept := Sweep(from.store, localStaleAt, serverStaleAt, now);
      Holds(h, from, swept, swept, timedOut, 0)
  {
    var step := SweepTimedOut(localStaleAt, serverStaleAt, now);
    LeadsOn(Execution([], [from]), from, from, step);
    h := Then(Execution([], [from]), step);
    assert timedOut[0..] == timedOut;
    SweepIsUntouched(from.store, localStaleAt, serverStaleAt, now, timedOut);
  }

  lemma ForceHolds(h: Execution, from: State, st: Store, swept: Store, timedOut: seq<Forced>, n: nat, now: int)
    returns (more: Execution)
    requires Holds(h, from, st, swept, timedOut, n) && Inv(from) && n < |timedOut|
    ensures Holds(more, from, ForceComplete(st, timedOut[n], now), swept, timedOut, n + 1)
  {
    var mid := Holding(from, st, timedOut[n..]);
    TakeFirst(from.pending, timedOut[n..]);
    assert timedOut[n..][1..] == timedOut[n + 1..];
    LeadsOn(h, from, mid, Force(timedOut[n], now));
    more := Then(h, Force(timedOut[n], now));
    InvAlong(h, from, |h.steps|);
    ForceSettlesNext(swept, mid, timedOut, n, now);
  }

  lemma AdmissionsHold(h: Execution, from: State, st: Store, swept: Store, timedOut: seq<Forced>, n: nat,
                       more: Execution, after: Store)
    requires Holds(h, from, st, swept, timedOut, n)
    requires Admits(h, more, from, Holding(from, st, timedOut[n..]), after)
    ensures Holds(more, from, after, swept, timedOut, n)
  {
    AdmissionsKeepSettled(swept, st, after, timedOut, n);
  }

  /** The invocation of the completion has no plan, or one that is admitted. */
  ghost predicate PlanIsAdmitted(st: Store, f: Forced) {
    f.invocation in st.invocations &&
    var planId := st.invocations[f.invocation].planId;
    planId.Some? ==> planId.value in st.plans && st.plans[planId.value].status == Admitted
  }

  /** The plans of the rows that were not forced are admitted still. */
  lemma RestIsAdmitted(from: State, localStaleAt: int, serverStaleAt: int, now: int, st: Store, timedOut: seq<Forced>,
                       n: nat)
    requires Linked(from) && IsListing(from.store, localStaleAt, serverStaleAt, now, timedOut)
    requires SettledTo(Sweep(from.store, localStaleAt, serverStaleAt, now), st, timedOut, n)
    ensures forall m :: n <= m < |timedOut| ==> PlanIsAdmitted(st, timedOut[m])
  {
    SweepInvocations(from.store, localStaleAt, serverStaleAt, now);
    forall m | n <= m < |timedOut| ensures PlanIsAdmitted(st, timedOut[m]) {
      assert timedOut[m] in TimedOut(from.store.invocations, localStaleAt, serverStaleAt, now);
      assert LinksBack(from, timedOut[m].invocation);
    }
  }

  /** Where the request stops, exactly the rows it forced are settled, and those that needed no settling; it abandons
      the rest, whose plans are admitted still. */
  lemma Stops(h: Execution, from: State, localStaleAt: int, serverStaleAt: int, now: int, st: Store,
              timedOut: seq<Forced>, n: nat)
    returns (all: Execution)
    requires Inv(from) && IsListing(from.store, localStaleAt, serverStaleAt, now, timedOut)
    requires Holds(h, from, st, Sweep(from.store, localStaleAt, serverStaleAt, now), timedOut, n)
    ensures Leads(all, from, from.(store := st))
    ensures forall m :: 0 <= m < |timedOut| ==>
      (Settled(st, timedOut[m]) <==>
        m < n || Settled(Sweep(from.store, localStaleAt, serverStaleAt, now), timedOut[m]))
    ensures forall m :: n <= m < |timedOut| ==> PlanIsAdmitted(st, timedOut[m])
    ensures forall m :: 0 <= m < |timedOut| ==> (Abandon(timedOut[m]) in all.steps <==> n <= m)
  {
    var swept := Sweep(from.store, localStaleAt, serverStaleAt, now);
    forall m | n <= m < |timedOut| ensures Settled(st, timedOut[m]) <==> Settled(swept, timedOut[m]) {
      UntouchedSettled(swept, st, timedOut[m]);
    }
    RestIsAdmitted(from, localStaleAt, serverStaleAt, now, st, timedOut, n);
    AbandonedAreRest(h.steps, timedOut, n);
    all := AbandonAll(h, from, Holding(from, st, timedOut[n..]), timedOut[n..], from.pending);
  }
}
