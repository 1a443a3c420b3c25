/** Automatic retry pacing, and the preparation of target manifests that it paces. */
module Retry {
  import opened Common

  function PowerOfTwo(n: nat): (r: nat)
    ensures r > 0
  {
    if n == 0 then 1 else 2 * PowerOfTwo(n - 1)
  }

  /** Seconds to wait after the `failures`-th consecutive failure: doubling from 5, at most 300. */
  function Backoff(failures: nat): nat {
    var exponent := if failures == 0 then 0 else if failures - 1 > 6 then 6 else failures - 1;
    var seconds := 5 * PowerOfTwo(exponent);
    if seconds < 300 then seconds else 300
  }

  lemma SmallPowers()
    ensures PowerOfTwo(1) == 2 && PowerOfTwo(2) == 4 && PowerOfTwo(3) == 8
    ensures PowerOfTwo(4) == 16 && PowerOfTwo(5) == 32 && PowerOfTwo(6) == 64
  {
    assert PowerOfTwo(2) == 2 * PowerOfTwo(1);
    assert PowerOfTwo(4) == 2 * PowerOfTwo(3);
    assert PowerOfTwo(6) == 2 * PowerOfTwo(5);
  }

  /** Delays never shrink as failures pile up, and stay within 5 and 300 seconds. */
  lemma BackoffGrows(a: nat, b: nat)
    requires a <= b
    ensures 5 <= Backoff(a) <= Backoff(b) <= 300
  {
    SmallPowers();
  }

  /** The least time from the first of `k` consecutive failures to the attempt after the last of them. */
  function LeastWait(k: nat): nat {
    if k <= 6 then 5 * (PowerOfTwo(k) - 1) else 5 * (PowerOfTwo(6) - 1) + 300 * (k - 6)
  }

  lemma LeastWaitStep(k: nat)
    ensures LeastWait(k + 1) == LeastWait(k) + Backoff(k + 1)
  {
    SmallPowers();
    if k < 6 {
      assert PowerOfTwo(k + 1) == 2 * PowerOfTwo(k);
      assert PowerOfTwo(k) <= 32;
    } else {
      assert LeastWait(6) == 315;
    }
  }

  // ---------------------------------------------------------------------------------------------
  // Preparation of the target manifest of one environment

  datatype Status = Running | Succeeded | Failed

  /** The preparation row of the environment. */
  datatype Row = Row(fingerprint: string, commit: string, status: Status, invocation: nat, failures: nat,
                     nextAttempt: Option<int>)

  /**
   * The row; the running preparation invocations with the commit each is for; those that a cancel ended before a
   * worker claimed them; the commits with a manifest; and the stopped invocations whose forced completion is under way.
   */
  datatype State = State(row: Option<Row>, active: map<nat, string>, canceled: set<nat>, captured: set<string>,
                         pending: multiset<nat>)

  const INITIAL := State(None, map[], {}, {}, multiset{})

  datatype Outcome = AlreadyAvailable | InProgress | Started

  /**
   * A call to ensure a preparation, or the end of one: its worker completes it in one transaction, while a sweep or a
   * cancel first stops the invocation and later forces its completion. A cancel of an unclaimed invocation can be
   * repeated and forced again; a forced completion can be abandoned.
   */
  datatype Step =
    | Ensure(fingerprint: string, commit: string, newId: nat, now: int)
    | Complete(invocation: nat, succeeded: bool, now: int)
    | Stop(invocation: nat, byCancel: bool, now: int)
    | CancelAgain(invocation: nat, now: int)
    | Force(invocation: nat, now: int)
    | Abandon(invocation: nat, now: int)

  predicate BackingOff(s: State, fingerprint: string, now: int) {
    && s.row.Some? && s.row.value.fingerprint == fingerprint && s.row.value.status == Failed
    && s.row.value.nextAttempt.Some? && s.row.value.nextAttempt.value > now
  }

  function Decide(s: State, fingerprint: string, commit: string, now: int): Outcome {
    if commit in s.captured then AlreadyAvailable
    else if commit in s.active.Values || BackingOff(s, fingerprint, now) then InProgress
    else Started
  }

  function MarkRunning(row: Option<Row>, fingerprint: string, commit: string, invocation: nat): Row {
    Row(fingerprint, commit, Running, invocation, if row.Some? then row.value.failures else 0, None)
  }

  function CompleteRow(row: Row, succeeded: bool, now: int): Row {
    if succeeded then row.(status := Succeeded, failures := 0, nextAttempt := None)
    else row.(status := Failed, failures := row.failures + 1, nextAttempt := Some(now + Backoff(row.failures + 1)))
  }

  predicate OwnsRow(s: State, invocation: nat) {
    s.row.Some? && s.row.value.invocation == invocation
  }

  /** The row after a completion of the invocation is recorded: it counts only in the row that it owns. */
  function Recorded(s: State, invocation: nat, succeeded: bool, now: int): Option<Row> {
    if OwnsRow(s, invocation) then Some(CompleteRow(s.row.value, succeeded, now)) else s.row
  }

  predicate Enabled(s: State, step: Step) {
    match step
    case Ensure(_, _, newId, _) => newId !in s.active && newId !in s.canceled && newId !in s.pending
    case Complete(invocation, _, _) => invocation in s.active
    case Stop(invocation, _, _) => invocation in s.active
    case CancelAgain(invocation, _) => invocation in s.canceled
    case Force(invocation, _) => invocation in s.pending
    case Abandon(invocation, _) => invocation in s.pending
  }

  function Apply(s: State, step: Step): State
    requires Enabled(s, step)
  {
    match step
    case Ensure(fingerprint, commit, newId, now) =>
      if Decide(s, fingerprint, commit, now).Started? then
        s.(row := Some(MarkRunning(s.row, fingerprint, commit, newId)), active := s.active[newId := commit])
      else s
    case Complete(invocation, succeeded, now) =>
      s.(row := Recorded(s, invocation, succeeded, now), active := s.active - {invocation},
        captured := if succeeded then s.captured + {s.active[invocation]} else s.captured)
    case Stop(invocation, byCancel, _) =>
      s.(active := s.active - {invocation}, canceled := if byCancel then s.canceled + {invocation} else s.canceled,
        pending := s.pending + multiset{invocation})
    case CancelAgain(invocation, _) => s.(pending := s.pending + multiset{invocation})
    case Force(invocation, now) =>
      s.(row := Recorded(s, invocation, false, now), pending := s.pending - multiset{invocation})
    case Abandon(invocation, _) => s.(pending := s.pending - multiset{invocation})
  }

  /** The tables, updated in place. */
  class Preparations {
    var row: Option<Row>
    var active: map<nat, string>
    var canceled: set<nat>
    var captured: set<string>

    constructor (s: State)
      ensures Value(s.pending) == s
    {
      row, active, canceled, captured := s.row, s.active, s.canceled, s.captured;
    }

    /** The state, with the forced completions that are under way. */
    function Value(pending: multiset<nat>): State
      reads this
    {
      State(row, active, canceled, captured, pending)
    }

    /** Starts a preparation unless a manifest exists, one is running, or the last failure is backing off. */
    method EnsureManifestPreparation(fingerprint: string, commit: string, newId: nat, now: int,
                                     ghost pending: multiset<nat>)
      returns (outcome: Outcome)
      requires Enabled(Value(pending), Ensure(fingerprint, commit, newId, now))
      modifies this
      ensures outcome == Decide(old(Value(pending)), fingerprint, commit, now)
      ensures outcome == AlreadyAvailable <==> commit in old(captured)
      ensures outcome == InProgress && commit !in old(active).Values ==>
        old(row).Some? && old(row).value.fingerprint == fingerprint && old(row).value.status == Failed &&
        old(row).value.nextAttempt.Some? && now < old(row).value.nextAttempt.value
      ensures outcome == Started ==> commit !in old(active).Values
      ensures outcome == Started && old(row).Some? && old(row).value.fingerprint == fingerprint ==>
        old(row).value.status != Failed || old(row).value.nextAttempt.None? || old(row).value.nextAttempt.value <= now
      ensures outcome == Started ==>
        && active == old(active)[newId := commit] && captured == old(captured)
        && row == Some(Row(fingerprint, commit, Running, newId, if old(row).Some? then old(row).value.failures else 0,
             None))
      ensures outcome != Started ==> row == old(row) && active == old(active) && captured == old(captured)
      ensures Value(pending) == Apply(old(Value(pending)), Ensure(fingerprint, commit, newId, now))
    {
      if commit in captured {
        return AlreadyAvailable;
      }
      if commit in active.Values {
        return InProgress;
      }
      if row.Some? && row.value.fingerprint == fingerprint && row.value.status == Failed {
        if row.value.nextAttempt.Some? && row.value.nextAttempt.value > now {
          return InProgress;
        }
      }
      active := active[newId := commit];
      var kept := if row.Some? then row.value.failures else 0;
      row := Some(Row(fingerprint, commit, Running, newId, kept, None));
      outcome := Started;
    }

    /** Records a completion of the invocation in the row it owns, if it still does. */
    method RecordCompletion(invocation: nat, succeeded: bool, now: int)
      modifies this`row
      ensures row == Recorded(old(Value(multiset{})), invocation, succeeded, now)
      ensures old(row).None? || old(row).value.invocation != invocation ==> row == old(row)
      ensures old(row).Some? && old(row).value.invocation == invocation ==>
        var before := old(row).value;
        row == Some(if succeeded then before.(status := Succeeded, failures := 0, nextAttempt := None)
          else before.(status := Failed, failures := before.failures + 1,
            nextAttempt := Some(now + Backoff(before.failures + 1))))
    {
      var owns := row.Some? && row.value.invocation == invocation;
      var existing := if owns then row.value.failures else 0;
      var next := if succeeded then 0 else existing + 1;
      var nextAttempt := if succeeded then None else Some(now + Backoff(next));
      if owns {
        var status := if succeeded then Succeeded else Failed;
        row := Some(row.value.(status := status, failures := next, nextAttempt := nextAttempt));
      }
    }

    /** A worker's completion: the invocation and the row, in one transaction. */
    method CompleteManifestPrepare(invocation: nat, succeeded: bool, now: int, ghost pending: multiset<nat>)
      requires invocation in active
      modifies this
      ensures Value(pending) == Apply(old(Value(pending)), Complete(invocation, succeeded, now))
    {
      RecordCompletion(invocation, succeeded, now);
      if succeeded { captured := captured + {active[invocation]}; }
      active := active - {invocation};
    }

    /** The forced completion of an invocation that a sweep or a cancel has stopped. */
    method ForceManifestPrepare(invocation: nat, now: int, ghost pending: multiset<nat>)
      requires invocation in pending
      modifies this`row
      ensures Value(pending - multiset{invocation}) == Apply(old(Value(pending)), Force(invocation, now))
    {
      RecordCompletion(invocation, false, now);
    }
  }

  // ---------------------------------------------------------------------------------------------
  // Pacing over whole runs

  datatype Execution = Execution(steps: seq<Step>, states: seq<State>)

  ghost predicate StepAt(x: Execution, n: nat)
    requires n < |x.steps| && |x.states| == |x.steps| + 1
  {
    Enabled(x.states[n], x.steps[n]) && x.states[n + 1] == Apply(x.states[n], x.steps[n])
  }

  /** A completed row's invocation has ended, and so have those that were stopped. */
  ghost predicate Consistent(s: State) {
    && (s.row.Some? && s.row.value.status != Running ==> s.row.value.invocation !in s.active)
    && (forall i :: i in s.pending || i in s.canceled ==> i !in s.active)
  }

  /** Steps in order of time, from any consistent state. */
  ghost predicate Runs(x: Execution) {
    && |x.states| == |x.steps| + 1
    && Consistent(x.states[0])
    && (forall n :: 0 <= n < |x.steps| ==> StepAt(x, n))
    && (forall m, n :: 0 <= m <= n < |x.steps| ==> x.steps[m].now <= x.steps[n].now)
  }

  /** The step ends the preparation of `fingerprint` that owns the row, as a failure. */
  predicate FailsAttempt(s: State, step: Step, fingerprint: string) {
    && ((step.Complete? && !step.succeeded) || step.Stop?)
    && OwnsRow(s, step.invocation) && s.row.value.fingerprint == fingerprint
  }

  predicate Fails(x: Execution, fingerprint: string, n: nat)
    requires n < |x.steps| < |x.states|
  {
    FailsAttempt(x.states[n], x.steps[n], fingerprint)
  }

  /** How many attempts have failed; not how often the row was updated for it. */
  function Failures(x: Execution, fingerprint: string, n: nat): nat
    requires n <= |x.steps| < |x.states|
  {
    if n == 0 then 0 else Failures(x, fingerprint, n - 1) + if Fails(x, fingerprint, n - 1) then 1 else 0
  }

  /** When the first failure among the first `n` steps happened. */
  function FirstFailure(x: Execution, fingerprint: string, n: nat): int
    requires n <= |x.steps| < |x.states| && Failures(x, fingerprint, n) > 0
  {
    if Failures(x, fingerprint, n - 1) > 0 then FirstFailure(x, fingerprint, n - 1) else x.steps[n - 1].now
  }

  /** Every call is for the same input fingerprint, and no preparation succeeds. */
  ghost predicate KeepsFailing(x: Execution, fingerprint: string) {
    forall n :: 0 <= n < |x.steps| ==> FailingStep(x.steps[n], fingerprint)
  }

  predicate FailingStep(step: Step, fingerprint: string) {
    match step
    case Ensure(f, _, _, _) => f == fingerprint
    case Complete(_, succeeded, _) => !succeeded
    case _ => true
  }

  /** The row's preparation has been stopped, and its failure is not recorded in the row. */
  predicate Unrecorded(s: State) {
    s.row.Some? && s.row.value.status == Running && s.row.value.invocation !in s.active
  }

  predicate Starts(s: State, step: Step) {
    step.Ensure? && Decide(s, step.fingerprint, step.commit, step.now).Started?
  }

  /** No call among the first `n` steps starts a preparation while a failure is not recorded. */
  ghost predicate StartsRecorded(x: Execution, n: nat)
    requires n <= |x.steps| < |x.states|
  {
    forall m :: 0 <= m < n && Starts(x.states[m], x.steps[m]) ==> !Unrecorded(x.states[m])
  }

  /**
   * After `k` failures since `first`: a recorded failure holds the next attempt back, to `first + LeastWait(k)` at
   * least; the next attempt has begun no sooner; a failure not yet recorded came no sooner than its attempt could.
   */
  ghost predicate Paced(s: State, fingerprint: string, k: nat, first: int, now: int)
    requires k > 0
  {
    && s.row.Some? && s.row.value.fingerprint == fingerprint
    && match s.row.value.status
       case Succeeded => false
       case Failed =>
         s.row.value.failures >= k && now >= first + LeastWait(k - 1) &&
         s.row.value.nextAttempt.Some? && s.row.value.nextAttempt.value >= first + LeastWait(k)
       case Running =>
         if Unrecorded(s) then s.row.value.failures >= k - 1 && now >= first + LeastWait(k - 1)
         else s.row.value.failures >= k && now >= first + LeastWait(k)
  }

  lemma {:induction false} AlwaysConsistent(x: Execution, n: nat)
    requires Runs(x) && n <= |x.steps|
    ensures Consistent(x.states[n])
  {
    if n > 0 {
      AlwaysConsistent(x, n - 1);
      assert StepAt(x, n - 1);
    }
  }

  lemma FailurePaced(s: State, fingerprint: string, k: nat, first: int, before: int, step: Step)
    requires FailsAttempt(s, step, fingerprint) && Enabled(s, step) && Consistent(s) && before <= step.now
    requires if k == 0 then first == step.now else Paced(s, fingerprint, k, first, before)
    ensures Paced(Apply(s, step), fingerprint, k + 1, first, step.now)
  {
    LeastWaitStep(k);
    BackoffGrows(k + 1, s.row.value.failures + 1);
  }

  lemma OtherStepPaced(s: State, fingerprint: string, k: nat, first: int, before: int, step: Step)
    requires Enabled(s, step) && Consistent(s) && FailingStep(step, fingerprint) && before <= step.now && k > 0
    requires Paced(s, fingerprint, k, first, before) && !FailsAttempt(s, step, fingerprint)
    requires Starts(s, step) ==> !Unrecorded(s)
    ensures Paced(Apply(s, step), fingerprint, k, first, step.now)
    ensures Starts(s, step) ==> step.now >= first + LeastWait(k)
  {
    if step.Force? {
      LeastWaitStep(k - 1);
      BackoffGrows(k, s.row.value.failures + 1);
    }
  }

  lemma {:induction false} AlwaysPaced(x: Execution, fingerprint: string, n: nat)
    requires Runs(x) && KeepsFailing(x, fingerprint) && 0 < n <= |x.steps| && Failures(x, fingerprint, n) > 0
    requires StartsRecorded(x, n)
    ensures Paced(x.states[n], fingerprint, Failures(x, fingerprint, n), FirstFailure(x, fingerprint, n),
      x.steps[n - 1].now)
  {
    var s, step, k := x.states[n - 1], x.steps[n - 1], Failures(x, fingerprint, n - 1);
    assert StepAt(x, n - 1);
    assert FailingStep(step, fingerprint);
    AlwaysConsistent(x, n - 1);
    var first := FirstFailure(x, fingerprint, n);
    var before := if n > 1 then x.steps[n - 2].now else step.now;
    if k > 0 { AlwaysPaced(x, fingerprint, n - 1); }
    if Fails(x, fingerprint, n - 1) {
      FailurePaced(s, fingerprint, k, first, before, step);
    } else {
      OtherStepPaced(s, fingerprint, k, first, before, step);
    }
  }

  /**
   * While one input keeps failing, and no call starts a preparation between the stop of the one before and the record
   * of its failure, the attempt after `k` failed ones starts at least `LeastWait(k)` seconds after the first failure.
   */
  lemma AttemptsArePaced(x: Execution, fingerprint: string, n: nat)
    requires Runs(x) && KeepsFailing(x, fingerprint) && n < |x.steps| && Starts(x.states[n], x.steps[n])
    requires StartsRecorded(x, n + 1) && Failures(x, fingerprint, n) > 0
    ensures x.steps[n].now >= FirstFailure(x, fingerprint, n) + LeastWait(Failures(x, fingerprint, n))
  {
    AlwaysPaced(x, fingerprint, n);
    AlwaysConsistent(x, n);
    assert StepAt(x, n);
    assert FailingStep(x.steps[n], fingerprint);
    OtherStepPaced(x.states[n], fingerprint, Failures(x, fingerprint, n), FirstFailure(x, fingerprint, n),
      x.steps[n - 1].now, x.steps[n]);
  }

  /** No two running preparations are for the same commit. */
  ghost predicate OnePerCommit(s: State) {
    forall i, j :: i in s.active && j in s.active && s.active[i] == s.active[j] ==> i == j
  }

  lemma {:induction false} AlwaysOnePerCommit(x: Execution, n: nat)
    requires Runs(x) && OnePerCommit(x.states[0]) && n <= |x.steps|
    ensures OnePerCommit(x.states[n])
  {
    if n > 0 {
      AlwaysOnePerCommit(x, n - 1);
      assert StepAt(x, n - 1);
    }
  }

  /** Each stop and each repeated cancel hands on one forced completion; each is forced or abandoned once. */
  lemma PendingCounts(x: Execution, n: nat, i: nat)
    requires Runs(x) && n < |x.steps|
    ensures x.states[n + 1].pending[i] == x.states[n].pending[i] +
      match x.steps[n]
      case Stop(j, _, _) => if j == i then 1 else 0
      case CancelAgain(j, _) => if j == i then 1 else 0
      case Force(j, _) => if j == i then -1 else 0
      case Abandon(j, _) => if j == i then -1 else 0
      case _ => 0
  {
    assert StepAt(x, n);
  }

  /** Only a preparation that a cancel has stopped can be cancelled again. */
  lemma {:induction false} CancelledWasStopped(x: Execution, n: nat, i: nat)
    requires Runs(x) && n <= |x.steps| && i in x.states[n].canceled && i !in x.states[0].canceled
    ensures exists m :: 0 <= m < n && x.steps[m].Stop? && x.steps[m].invocation == i && x.steps[m].byCancel
  {
    assert StepAt(x, n - 1);
    if i in x.states[n - 1].canceled {
      CancelledWasStopped(x, n - 1, i);
    }
  }

  /** Once a preparation of a commit has succeeded, none is ever started for it again. */
  lemma {:induction false} CapturedStartsNoMore(x: Execution, m: nat, n: nat)
    requires Runs(x) && m < n <= |x.steps| && x.steps[m].Complete? && x.steps[m].succeeded
    requires x.steps[m].invocation in x.states[m].active
    ensures var commit := x.states[m].active[x.steps[m].invocation];
      commit in x.states[n].captured &&
      (n < |x.steps| && x.steps[n].Ensure? && x.steps[n].commit == commit ==> !Starts(x.states[n], x.steps[n]))
  {
    if m < n - 1 { CapturedStartsNoMore(x, m, n - 1); }
    assert StepAt(x, n - 1);
  }

  /** A call after `n` steps could start an attempt too soon exactly when a failure is unrecorded then. */
  lemma EarlyStartIff(x: Execution, fingerprint: string, commit: string, n: nat)
    requires Runs(x) && KeepsFailing(x, fingerprint) && n <= |x.steps| && StartsRecorded(x, n)
    requires Failures(x, fingerprint, n) > 0
    requires commit !in x.states[n].captured && commit !in x.states[n].active.Values
    ensures var due := FirstFailure(x, fingerprint, n) + LeastWait(Failures(x, fingerprint, n));
      (exists now :: x.steps[n - 1].now <= now < due && Decide(x.states[n], fingerprint, commit, now).Started?) <==>
        Unrecorded(x.states[n]) && x.steps[n - 1].now < due
  {
    AlwaysPaced(x, fingerprint, n);
    var s, last := x.states[n], x.steps[n - 1].now;
    if Unrecorded(s) {
      assert Decide(s, fingerprint, commit, last).Started?;
    }
  }
}
