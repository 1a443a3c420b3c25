/** The transactions themselves, over the tables they update in place. */
module ControlTables {
  import opened Common
  import opened ControlPlane
  import opened ControlSafety
  import opened ControlSweep
  import opened ControlRequests

  datatype ControlError = InvocationNotFound | OwnershipMismatch | PlanNotFound | PlanNotAdmissible |
    PreparationFailed | ReconciliationInProgress

  /** Claims go to the earliest started row; ids break ties. */
  predicate Before(a: Invocation, i: nat, b: Invocation, j: nat) {
    a.startedAt < b.startedAt || (a.startedAt == b.startedAt && i <= j)
  }

  function ClaimableIds(invocations: map<nat, Invocation>, mode: Option<Mode>, queues: set<string>, now: int,
                        locked: set<nat>):
    (ids: set<nat>)
    ensures ids <= invocations.Keys
  {
    set i | i in invocations && i !in locked && Claimable(invocations[i], mode, queues, now)
  }

  ghost predicate IsEarliest(invocations: map<nat, Invocation>, ids: set<nat>, next: nat)
    requires ids <= invocations.Keys && next in invocations
  {
    forall i :: i in ids ==> Before(invocations[next], next, invocations[i], i)
  }

  /** The two updates of a sweep: unclaimed rows past their deadline, then claimed rows without a recent sign. */
  function FailUnclaimed(invocations: map<nat, Invocation>, now: int): map<nat, Invocation> {
    map i | i in invocations ::
      if ClaimExpired(invocations[i], now) then Finish(invocations[i], NOT_CLAIMED, now) else invocations[i]
  }

  function FailLost(invocations: map<nat, Invocation>, localStaleAt: int, serverStaleAt: int, now: int):
    map<nat, Invocation>
  {
    map i | i in invocations ::
      if HeartbeatExpired(invocations[i], localStaleAt, serverStaleAt) then Finish(invocations[i], HEARTBEAT_LOST, now)
      else invocations[i]
  }

  lemma SweepIsBothUpdates(st: Store, localStaleAt: int, serverStaleAt: int, now: int)
    ensures FailLost(FailUnclaimed(st.invocations, now), localStaleAt, serverStaleAt, now) ==
      Sweep(st, localStaleAt, serverStaleAt, now).invocations
    ensures forall i :: i in st.invocations ==>
      (HeartbeatExpired(FailUnclaimed(st.invocations, now)[i], localStaleAt, serverStaleAt) <==>
        HeartbeatExpired(st.invocations[i], localStaleAt, serverStaleAt))
  {
  }

  class Db {
    var invocations: map<nat, Invocation>
    var plans: map<nat, Plan>
    var resources: map<ResourceKey, Resource>

    function Store(): Store
      reads this
    {
      ControlPlane.Store(invocations, plans, resources)
    }

    constructor ()
      ensures Store() == INITIAL.store
    {
      invocations, plans, resources := map[], map[], map[];
    }

    /** Claims the earliest claimable row that no other claim has locked, or nothing if there is none. */
    method ClaimNextInvocation(worker: string, mode: Option<Mode>, queues: set<string>, token: nat, now: int,
                               locked: set<nat>)
      returns (claimed: Option<nat>)
      modifies this`invocations
      ensures claimed.None? <==> ClaimableIds(old(invocations), mode, queues, now, locked) == {}
      ensures claimed.None? ==> invocations == old(invocations)
      ensures claimed.None? ==>
        forall i | i in invocations && i !in locked ::
          || invocations[i].status != Running || invocations[i].claimedBy.Some? || !invocations[i].hasSpec
          || invocations[i].queue !in queues || (mode.Some? && invocations[i].mode != mode.value)
          || (invocations[i].claimDeadlineAt.Some? && invocations[i].claimDeadlineAt.value < now)
      ensures claimed.Some? ==>
        && claimed.value in old(invocations) && claimed.value !in locked
        && var row := old(invocations)[claimed.value];
           && row.status == Running && row.claimedBy.None? && row.hasSpec && row.queue in queues
           && (mode.None? || row.mode == mode.value) && (row.claimDeadlineAt.None? || row.claimDeadlineAt.value >= now)
           && claimed.value in invocations
           && invocations[claimed.value] == row.(claimedBy := Some(worker), leaseToken := Some(token),
                claimedAt := Some(now), lastHeartbeatAt := Some(now))
      ensures claimed.Some? ==>
        && claimed.value in ClaimableIds(old(invocations), mode, queues, now, locked)
        && IsEarliest(old(invocations), ClaimableIds(old(invocations), mode, queues, now, locked), claimed.value)
        && invocations ==
          old(invocations)[claimed.value := Claimed(old(invocations)[claimed.value], worker, token, now)]
    {
      var ids := ClaimableIds(invocations, mode, queues, now, locked);
      if ids == {} {
        assert forall i :: i in invocations && i !in locked ==> i !in ids;
        return None;
      }
      var next := EarliestOf(ids);
      invocations := invocations[next := Claimed(invocations[next], worker, token, now)];
      claimed := Some(next);
    }

    method EarliestOf(ids: set<nat>) returns (next: nat)
      requires ids != {} && ids <= invocations.Keys
      ensures next in ids && IsEarliest(invocations, ids, next)
    {
      next := PickFrom(ids);
      var rest := ids;
      while rest != {}
        invariant next in ids && rest <= ids
        invariant forall i :: i in ids ==> i in rest || Before(invocations[next], next, invocations[i], i)
        decreases rest
      {
        var i := PickFrom(rest);
        rest := rest - {i};
        if !Before(invocations[next], next, invocations[i], i) {
          next := i;
        }
      }
    }

    /** Refreshes the heartbeat, and answers whether a cancel has been requested. */
    method HeartbeatInvocation(id: nat, worker: string, token: nat, now: int, ghost h: Execution)
      returns (r: Result<bool, ControlError>)
      requires Runs(h) && h.states[|h.steps|].store == Store()
      modifies this`invocations
      ensures r.Ok? ==> (r.value <==> exists j: nat :: j < |h.steps| && CancelsAt(h, j, id))
      ensures Accepted(old(Store()), id, worker, token) ==>
        && r == Ok(old(invocations)[id].cancelRequestedAt.Some?)
        && invocations == old(invocations)[id := old(invocations)[id].(lastHeartbeatAt := Some(now))]
      ensures !Accepted(old(Store()), id, worker, token) ==>
        r == Err(OwnershipMismatch) && invocations == old(invocations)
    {
      if id !in invocations || invocations[id].claimedBy != Some(worker) || invocations[id].leaseToken != Some(token)
        || invocations[id].status != Running {
        return Err(OwnershipMismatch);
      }
      MarkedIffCancelled(h, |h.steps|, id);
      invocations := invocations[id := invocations[id].(lastHeartbeatAt := Some(now))];
      r := Ok(invocations[id].cancelRequestedAt.Some?);
    }

    /** The first phase of a cancel; what it returns is to be forced in the second. */
    method RequestCancelInvocation(id: nat, now: int) returns (r: Result<Option<Forced>, ControlError>)
      requires id in invocations && invocations[id].status != Running ==> invocations[id].exitCode.Some?
      modifies this`invocations
      ensures id !in old(invocations) ==> r == Err(InvocationNotFound) && invocations == old(invocations)
      ensures id in old(invocations) && old(invocations)[id].status != Running ==> invocations == old(invocations)
      ensures id in old(invocations) && old(invocations)[id].status == Running ==>
        var row := old(invocations)[id];
        var at := if row.cancelRequestedAt.Some? then row.cancelRequestedAt else Some(now);
        row.claimedBy.Some? ==> r == Ok(None) && invocations == old(invocations)[id := row.(cancelRequestedAt := at)]
      ensures id in old(invocations) && old(invocations)[id].status == Running ==>
        var row := old(invocations)[id];
        var at := if row.cancelRequestedAt.Some? then row.cancelRequestedAt else Some(now);
        row.claimedBy.None? ==>
          && r == Ok(Some(Forced(id, Completion(Canceled, 130, Some("invocation canceled")))))
          && invocations == old(invocations)[id := row.(cancelRequestedAt := at, status := Canceled,
               exitCode := Some(130), error := Some("invocation canceled"), completedAt := Some(now))]
      ensures id in old(invocations) ==>
        && invocations == old(invocations)[id := CancelRow(old(invocations)[id], now)]
        && var row := CancelRow(old(invocations)[id], now);
           r == if row.status == Canceled && row.claimedBy.None? && row.exitCode.Some?
             then Ok(Some(Forced(id, Completion(Canceled, row.exitCode.value, row.error)))) else Ok(None)
    {
      if id !in invocations {
        return Err(InvocationNotFound);
      }
      var row := invocations[id];
      if row.status == Running {
        if row.cancelRequestedAt.None? {
          row := row.(cancelRequestedAt := Some(now));
        }
        if row.claimedBy.None? {
          row := row.(status := Canceled, exitCode := Some(130), error := Some("invocation canceled"),
            completedAt := Some(now));
        }
      }
      invocations := invocations[id := row];
      if row.status == Canceled && row.claimedBy.None? {
        return Ok(Some(Forced(id, Completion(Canceled, row.exitCode.value, row.error))));
      }
      r := Ok(None);
    }

    /** The first phase of a timeout sweep: two updates in one transaction, unclaimed rows first. */
    method ReconcileTimedOutInvocations(localStaleAt: int, serverStaleAt: int, now: int) returns (timedOut: set<Forced>)
      modifies this`invocations
      ensures Store() == Sweep(old(Store()), localStaleAt, serverStaleAt, now)
      ensures timedOut == TimedOut(old(invocations), localStaleAt, serverStaleAt, now)
    {
      ghost var before := Store();
      timedOut := set i | i in invocations && ClaimExpired(invocations[i], now) :: Forced(i, NOT_CLAIMED);
      invocations := FailUnclaimed(invocations, now);
      SweepIsBothUpdates(before, localStaleAt, serverStaleAt, now);
      timedOut := timedOut +
        set i | i in invocations && HeartbeatExpired(invocations[i], localStaleAt, serverStaleAt) ::
          Forced(i, HEARTBEAT_LOST);
      invocations := FailLost(invocations, localStaleAt, serverStaleAt, now);
    }

    /** Closes the invocation's open rows and completes its plan, inside the caller's transaction. */
    method ApplySideEffects(id: nat, status: Status, now: int)
      requires id in invocations
      modifies this`plans, this`resources
      ensures Store() == SideEffects(old(Store()), id, status, now)
    {
      resources := map k | k in resources :: if k.invocation == id then resources[k].(open := false) else resources[k];
      var planId := invocations[id].planId;
      if planId.Some? && planId.value in plans {
        var plan := plans[planId.value];
        var done := PlanStatusOf(status);
        if done == PlanCompleted {
          plan := plan.(status := done, failureCount := 0, nextAttemptAt := None, completedAt := Some(now));
        } else {
          var failures := plan.failureCount + 1;
          plan := plan.(status := done, failureCount := failures, completedAt := Some(now),
            nextAttemptAt := Some(now + Retry.Backoff(failures)));
        }
        plans := plans[planId.value := plan];
      }
    }

    method CompleteInvocation(id: nat, worker: string, token: nat, c: Completion, now: int)
      returns (r: Result<(), ControlError>)
      modifies this
      ensures Store() == Complete(old(Store()), id, worker, token, c, now)
      ensures r.Ok? <==> Accepted(old(Store()), id, worker, token) && c.status != Running
      ensures r == Err(InvocationNotFound) <==> id !in old(invocations)
      ensures invocations == if r.Err? then old(invocations)
        else old(invocations)[id := old(invocations)[id].(status := c.status, exitCode := Some(c.exitCode),
          error := c.error, completedAt := Some(now), leaseToken := None)]
    {
      if id !in invocations {
        return Err(InvocationNotFound);
      }
      if !Held(invocations[id], worker, token) {
        return Err(OwnershipMismatch);
      }
      if c.status == Running {
        // The row constraint rejects the update and the transaction rolls back.
        return Err(OwnershipMismatch);
      }
      ApplySideEffects(id, c.status, now);
      invocations := invocations[id := Finish(invocations[id], c, now)];
      r := Ok(());
    }

    method ForceCompleteInvocation(f: Forced, now: int) returns (r: Result<(), ControlError>)
      modifies this
      ensures Store() == ForceComplete(old(Store()), f, now)
      ensures r.Ok? <==> f.invocation in old(invocations)
      ensures r.Ok? ==>
        var row, c := old(invocations)[f.invocation], f.completion;
        invocations == old(invocations)[f.invocation := row.(status := c.status, exitCode := Some(c.exitCode),
          error := c.error, completedAt := Some(if row.completedAt.Some? then row.completedAt.value else now),
          leaseToken := None)]
    {
      var id := f.invocation;
      if id !in invocations {
        return Err(InvocationNotFound);
      }
      ApplySideEffects(id, f.completion.status, now);
      var at := if invocations[id].completedAt.Some? then invocations[id].completedAt.value else now;
      invocations := invocations[id := Finish(invocations[id], f.completion, at)];
      r := Ok(());
    }

    /** Inserts a planned plan, then supersedes every other pending plan of its environment. */
    method CreateAndSupersede(p: nat, env: nat, selected: seq<string>)
      requires p !in plans
      modifies this`plans
      ensures plans == Supersede(old(plans)[p := NewPlan(env, selected)], p)
      ensures plans.Keys == old(plans.Keys) + {p}
      ensures plans[p] == Plan(env, Planned, selected, None, None, None, 0, None, None)
      ensures forall q :: q in old(plans) ==>
        plans[q] == if old(plans)[q].env == env && old(plans)[q].status in {Planned, Blocked}
          then old(plans)[q].(status := Superseded, supersededBy := Some(p)) else old(plans)[q]
      ensures forall q :: q in plans && plans[q].env == env && Admissible(plans[q].status) ==> q == p
    {
      plans := plans[p := NewPlan(env, selected)];
      var created := plans;
      plans := map q | q in created ::
        if created[q].env == env && Admissible(created[q].status) && q != p
        then created[q].(status := Superseded, supersededBy := Some(p)) else created[q];
    }

    method FirstConflict(p: nat) returns (first: Option<nat>)
      requires p in plans
      ensures first.None? <==> Conflicts(Store(), p) == {}
      ensures first.None? <==> forall i, x :: x in plans[p].selected ==> !Occupied(Store(), p, i, x)
      ensures first.Some? ==>
        first.value in Conflicts(Store(), p) && forall i :: i in Conflicts(Store(), p) ==> first.value <= i
    {
      var all := Conflicts(Store(), p);
      NoConflictIff(Store(), p);
      if all == {} {
        return None;
      }
      var least := PickFrom(all);
      var rest := all;
      while rest != {}
        invariant least in all && rest <= all && forall i :: i in all ==> i in rest || least <= i
        decreases rest
      {
        var i := PickFrom(rest);
        rest := rest - {i};
        if i < least { least := i; }
      }
      first := Some(least);
    }

    method MarkBlocked(p: nat, blocker: nat)
      requires p in plans
      modifies this`plans
      ensures plans ==
        old(plans)[p := old(plans)[p].(status := Blocked, blockedBy := Some(blocker), nextAttemptAt := None)]
    {
      plans := plans[p := plans[p].(status := Blocked, blockedBy := Some(blocker), nextAttemptAt := None)];
    }

    /** The read that admits a report: a claim that matches is held, as rows that do not run carry no token. */
    method FencePasses(id: nat, worker: string, token: nat) returns (passes: bool)
      ensures passes <==> ClaimMatches(Store(), Report(id, worker, token))
    {
      passes := id in invocations && invocations[id].claimedBy == Some(worker) &&
        invocations[id].leaseToken == Some(token);
    }

    /** Inserts one row per name unless it is there; looks at no status, worker or token. */
    method InsertSelectedResources(id: nat, env: nat, names: seq<string>)
      modifies this`resources
      ensures resources == OpenRows(old(resources), id, env, names)
      ensures forall k :: k in old(resources) ==> k in resources && resources[k] == old(resources)[k]
      ensures forall k :: k in resources && k !in old(resources) ==>
        k.invocation == id && k.uniqueId in names && resources[k] == Resource(env, true)
      ensures forall x :: x in names ==> ResourceKey(id, x) in resources
    {
      for i := 0 to |names|
        invariant resources == OpenRows(old(resources), id, env, names[..i])
      {
        assert names[..i + 1] == names[..i] + [names[i]];
        var key := ResourceKey(id, names[i]);
        if key !in resources {
          resources := resources[key := Resource(env, true)];
        }
      }
      assert names[..|names|] == names;
    }

    /** Creates the plan's invocation, marks the plan admitted and opens a row per selected resource. */
    method StartAndMarkAdmitted(p: nat, id: nat, queue: string, deadline: Option<int>, now: int)
      requires p in plans && id !in invocations
      modifies this
      ensures var plan := old(plans)[p];
        && invocations == old(invocations)[id := Invocation(Some(p), Some(plan.env), Server, queue, true, now, deadline,
             Running, None, None, None, None, None, None, None, None)]
        && plans == old(plans)[p := plan.(status := Admitted, admittedInvocation := Some(id), supersededBy := None,
             blockedBy := None, nextAttemptAt := None)]
        && resources == OpenRows(old(resources), id, plan.env, plan.selected)
    {
      var plan := plans[p];
      invocations := invocations[id := NewInvocation(Some(p), Some(plan.env), Server, queue, true, deadline, now)];
      plans := plans[p := plan.(status := Admitted, admittedInvocation := Some(id), supersededBy := None,
        blockedBy := None, nextAttemptAt := None)];
      InsertSelectedResources(id, plan.env, plan.selected);
    }

    /** Replans, blocks on the first conflict, or starts the plan's invocation and marks the plan admitted. */
    method AdmitAndStartPlan(p: nat, replan: Replan, prepares: bool, id: nat, queue: string, deadline: Option<int>,
                             now: int)
      returns (r: Result<Option<nat>, ControlError>, ghost a: Admission)
      requires id !in invocations
      modifies this
      ensures a.plan == p && a.replan == replan && a.prepares == prepares && a.invocation == id
      ensures AdmissionOutcome(old(Store()), a) == IsBlocked ==> IsFirstConflict(old(Store()), a)
      ensures Store() == Admit(old(Store()), a)
      ensures r == match AdmissionOutcome(old(Store()), a)
        case NotFound => Err(PlanNotFound)
        case NotAdmissible => Err(PlanNotAdmissible)
        case NotPrepared => Err(PreparationFailed)
        case Noop => Ok(None)
        case IsBlocked => Ok(None)
        case Started => Ok(Some(id))
    {
      a := Admission(p, replan, prepares, id, queue, deadline, 0, now);
      if p !in plans {
        return Err(PlanNotFound), a;
      }
      if !Admissible(plans[p].status) {
        return Err(PlanNotAdmissible), a;
      }
      plans := plans[p := Replanned(plans[p], replan, now)];
      assert Store() == ReplannedStore(old(Store()), a);
      if plans[p].status == PlanCompleted {
        return Ok(None), a;
      }
      var blocker := FirstConflict(p);
      if blocker.Some? {
        a := a.(blocker := blocker.value);
        assert ReplannedStore(old(Store()), a) == Store();
        MarkBlocked(p, blocker.value);
        return Ok(None), a;
      }
      if !prepares {
        return Err(PreparationFailed), a;
      }
      StartAndMarkAdmitted(p, id, queue, deadline, now);
      r := Ok(Some(id));
    }

    /** An id that no invocation has. */
    method FreshId() returns (id: nat)
      ensures id !in invocations
    {
      id := 0;
      var rest := invocations.Keys;
      while rest != {}
        invariant rest <= invocations.Keys
        invariant forall i :: i in invocations ==> i in rest || i < id
        decreases rest
      {
        var i := PickFrom(rest);
        rest := rest - {i};
        if id <= i { id := i + 1; }
      }
    }

    /** Tries to admit every blocked plan of the environment, and stops at the first that fails. */
    method AdmitBlockedPlans(env: nat, attempts: nat -> Attempt, now: int, ghost h: Execution, ghost from: State,
                             ghost st: State)
      returns (r: Result<nat, ControlError>, ghost more: Execution)
      requires Leads(h, from, st) && st.store == Store() && Inv(from)
      modifies this
      ensures r.Err? ==> SomeFails(attempts)
      ensures Admits(h, more, from, st, Store())
    {
      more, r := h, Ok(0);
      var blocked := set p | p in plans && plans[p].env == env && plans[p].status == Blocked;
      while blocked != {}
        invariant r.Ok?
        invariant forall p :: p in blocked ==> p in plans && plans[p].status == Blocked
        invariant Admits(h, more, from, st, Store())
        decreases blocked
      {
        var p := PickFrom(blocked);
        blocked := blocked - {p};
        var attempt := attempts(p);
        if !attempt.leased {
          assert !attempts(p).leased;
          return Err(ReconciliationInProgress), more;
        }
        ghost var before := Store();
        var id := FreshId();
        var admitted, a := AdmitAndStartPlan(p, attempt.replan, attempt.prepares, id, attempt.queue, attempt.deadline,
          now);
        more := AdmitOn(h, more, from, st, before, a);
        if admitted.Err? {
          assert !attempts(p).prepares;
          return Err(admitted.error), more;
        }
        r := Ok(r.value + if admitted.value.Some? then 1 else 0);
      }
    }

    /** Forces one timed-out row, then tries the blocked plans of its environment. */
    method ForceAndAdmit(timedOut: seq<Forced>, n: nat, now: int, attempts: nat -> Attempt, ghost h: Execution,
                         ghost from: State, ghost swept: Store)
      returns (r: Result<nat, ControlError>, ghost more: Execution)
      requires Holds(h, from, Store(), swept, timedOut, n) && Inv(from) && n < |timedOut|
      modifies this
      ensures Holds(more, from, Store(), swept, timedOut, n + 1)
      ensures r.Err? ==> SomeFails(attempts)
    {
      more := ForceHolds(h, from, Store(), swept, timedOut, n, now);
      r := Ok(0);
      var f := timedOut[n];
      var _ := ForceCompleteInvocation(f, now);
      if invocations[f.invocation].env.Some? {
        ghost var before, st := more, Store();
        r, more := AdmitBlockedPlans(invocations[f.invocation].env.value, attempts, now, more, from,
          Holding(from, st, timedOut[n + 1..]));
        AdmissionsHold(before, from, st, swept, timedOut, n + 1, more, Store());
      }
    }

    /** Forces the timed-out rows in turn, up to the first admission that fails. */
    method ForceInTurn(timedOut: seq<Forced>, now: int, attempts: nat -> nat -> Attempt, ghost h: Execution,
                       ghost from: State, ghost swept: Store)
      returns (r: Result<nat, ControlError>, forced: nat, ghost more: Execution)
      requires Holds(h, from, Store(), swept, timedOut, 0) && Inv(from)
      modifies this
      ensures Holds(more, from, Store(), swept, timedOut, forced)
      ensures r.Ok? ==> forced == |timedOut| && r.value == forced
      ensures r.Err? ==> forced > 0 && SomeFails(attempts(forced - 1))
    {
      forced, r, more := 0, Ok(0), h;
      while forced < |timedOut| && r.Ok?
        invariant Holds(more, from, Store(), swept, timedOut, forced)
        invariant r.Err? ==> forced > 0 && SomeFails(attempts(forced - 1))
      {
        r, more := ForceAndAdmit(timedOut, forced, now, attempts(forced), more, from, swept);
        forced := forced + 1;
      }
      if r.Ok? { r := Ok(forced); }
    }

    /**
     * A timeout sweep as one request makes it, undisturbed. Each timed-out row is forced, and then the blocked plans
     * of its environment are tried; the first admission that fails ends the request, and what is left is abandoned.
     */
    method SweepAndForce(localStaleAt: int, serverStaleAt: int, now: int, attempts: nat -> nat -> Attempt,
                         ghost from: State)
      returns (r: Result<nat, ControlError>, timedOut: seq<Forced>, forced: nat, ghost h: Execution)
      requires from.store == Store() && Inv(from)
      modifies this
      ensures IsListing(old(Store()), localStaleAt, serverStaleAt, now, timedOut)
      ensures forced <= |timedOut| && (r.Ok? ==> forced == |timedOut| && r.value == forced)
      ensures r.Err? ==> forced > 0 && SomeFails(attempts(forced - 1))
      ensures forall n :: 0 <= n < |timedOut| ==>
        (Settled(Store(), timedOut[n]) <==>
          n < forced || Settled(Sweep(old(Store()), localStaleAt, serverStaleAt, now), timedOut[n]))
      ensures forall n :: forced <= n < |timedOut| ==> PlanIsAdmitted(Store(), timedOut[n])
      ensures Leads(h, from, from.(store := Store()))
      ensures forall n :: 0 <= n < |timedOut| ==> (Abandon(timedOut[n]) in h.steps <==> forced <= n)
    {
      var all := ReconcileTimedOutInvocations(localStaleAt, serverStaleAt, now);
      timedOut := Listed(all);
      ghost var swept := Sweep(from.store, localStaleAt, serverStaleAt, now);
      h := SweepHolds(from, localStaleAt, serverStaleAt, now, timedOut);
      r, forced, h := ForceInTurn(timedOut, now, attempts, h, from, swept);
      h := Stops(h, from, localStaleAt, serverStaleAt, now, Store(), timedOut, forced);
    }
  }
}
