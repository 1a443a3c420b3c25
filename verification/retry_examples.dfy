/** Preparations whose pacing goes other than one might expect. */
module RetryExamples {
  import opened Common
  import opened Retry

  function Attempt(fingerprint: string, commit: string, id: nat, failures: nat): Row {
    Row(fingerprint, commit, Running, id, failures, None)
  }

  /** The preparation runs. */
  function Going(row: Row): State {
    INITIAL.(row := Some(row), active := map[row.invocation := row.commit])
  }

  /** A cancel has ended it, and its completion has been forced as often as the row says. */
  function Canceled(row: Row, pending: multiset<nat>): State {
    INITIAL.(row := Some(row), canceled := {row.invocation}, pending := pending)
  }

  ghost predicate Steps(s: State, step: Step, s': State) {
    Enabled(s, step) && Apply(s, step) == s'
  }

  lemma {:induction false} FailuresOfPrefix(x: Execution, more: Execution, fingerprint: string, n: nat)
    requires n <= |x.steps| < |x.states| && |more.steps| < |more.states|
    requires x.steps <= more.steps && x.states <= more.states
    ensures Failures(more, fingerprint, n) == Failures(x, fingerprint, n)
  {
    if n > 0 { FailuresOfPrefix(x, more, fingerprint, n - 1); }
  }

  /** One more step of an execution. */
  lemma Extend(x: Execution, step: Step, s': State, fingerprint: string) returns (more: Execution)
    requires Runs(x) && Steps(x.states[|x.steps|], step, s')
    requires forall n :: 0 <= n < |x.steps| ==> x.steps[n].now <= step.now
    ensures Runs(more) && more.steps == x.steps + [step] && more.states == x.states + [s']
    ensures forall n :: 0 <= n <= |x.steps| ==> Failures(more, fingerprint, n) == Failures(x, fingerprint, n)
    ensures Failures(more, fingerprint, |more.steps|) ==
      Failures(x, fingerprint, |x.steps|) + if FailsAttempt(x.states[|x.steps|], step, fingerprint) then 1 else 0
  {
    more := Execution(x.steps + [step], x.states + [s']);
    forall k | 0 <= k < |more.steps| ensures StepAt(more, k) {
      if k < |x.steps| { assert StepAt(x, k); }
    }
    forall n | 0 <= n <= |x.steps| ensures Failures(more, fingerprint, n) == Failures(x, fingerprint, n) {
      FailuresOfPrefix(x, more, fingerprint, n);
    }
  }

  lemma Begins(fingerprint: string, commit: string)
    ensures Steps(INITIAL, Ensure(fingerprint, commit, 1, 0), Going(Attempt(fingerprint, commit, 1, 0)))
  {
  }

  lemma IsStopped(row: Row, now: int)
    ensures Steps(Going(row), Stop(row.invocation, true, now), Canceled(row, multiset{row.invocation}))
  {
    assert Going(row).active - {row.invocation} == map[];
    assert multiset{} + multiset{row.invocation} == multiset{row.invocation};
  }

  lemma IsForced(row: Row, now: int)
    ensures Steps(Canceled(row, multiset{row.invocation}), Force(row.invocation, now),
      Canceled(CompleteRow(row, false, now), multiset{}))
  {
    assert multiset{row.invocation} - multiset{row.invocation} == multiset{};
  }

  /** For any input: a preparation is started, and stopped while it owns the row. */
  lemma StopsFirst(fingerprint: string, commit: string) returns (x: Execution)
    ensures Runs(x) && x.steps == [Ensure(fingerprint, commit, 1, 0), Stop(1, true, 0)] && |x.states| == 3
    ensures x.states[2] == Canceled(Attempt(fingerprint, commit, 1, 0), multiset{1})
    ensures Failures(x, fingerprint, 1) == 0 && Failures(x, fingerprint, 2) == 1
  {
    var first := Attempt(fingerprint, commit, 1, 0);
    x := Execution([], [INITIAL]);
    Begins(fingerprint, commit);
    x := Extend(x, Ensure(fingerprint, commit, 1, 0), Going(first), fingerprint);
    IsStopped(first, 0);
    x := Extend(x, Stop(1, true, 0), Canceled(first, multiset{1}), fingerprint);
  }

  /** For any input: stopped at time 0, the preparation starts again at time 1, before its failure is recorded, and the
      failure is never counted. */
  lemma EarlyStart(fingerprint: string, commit: string) returns (x: Execution)
    ensures Runs(x) && |x.steps| == 4 && x.steps[2] == Ensure(fingerprint, commit, 2, 1) && x.steps[3] == Force(1, 1)
    ensures Starts(x.states[2], x.steps[2]) && Unrecorded(x.states[2])
    ensures Failures(x, fingerprint, 2) == 1 && FirstFailure(x, fingerprint, 2) == 0 && LeastWait(1) == 5
    ensures x.states[4].row == Some(Attempt(fingerprint, commit, 2, 0)) && x.states[4].pending == multiset{}
  {
    x := StopsFirst(fingerprint, commit);
    var second := Attempt(fingerprint, commit, 2, 0);
    var again := Canceled(Attempt(fingerprint, commit, 1, 0), multiset{1})
      .(row := Some(second), active := map[2 := commit]);
    x := Extend(x, Ensure(fingerprint, commit, 2, 1), again, fingerprint);
    assert multiset{1} - multiset{1} == multiset{};
    x := Extend(x, Force(1, 1), again.(pending := multiset{}), fingerprint);
    assert PowerOfTwo(1) == 2;
  }

  /** For any input: one attempt fails, is cancelled again, and counts twice; the next waits until 11, not 5. */
  lemma CanceledTwice(fingerprint: string, commit: string) returns (x: Execution)
    ensures Runs(x) && |x.steps| == 5 && x.steps[3] == CancelAgain(1, 1) && Failures(x, fingerprint, 5) == 1
    ensures x.states[3].row.Some? && x.states[3].row.value.nextAttempt == Some(5)
    ensures x.states[5].row.Some? && x.states[5].row.value.failures == 2 &&
      x.states[5].row.value.nextAttempt == Some(11)
  {
    x := StopsFirst(fingerprint, commit);
    var first := Attempt(fingerprint, commit, 1, 0);
    var once := CompleteRow(first, false, 0);
    IsForced(first, 0);
    x := Extend(x, Force(1, 0), Canceled(once, multiset{}), fingerprint);
    assert multiset{} + multiset{1} == multiset{1};
    x := Extend(x, CancelAgain(1, 1), Canceled(once, multiset{1}), fingerprint);
    IsForced(once, 1);
    x := Extend(x, Force(1, 1), Canceled(CompleteRow(once, false, 1), multiset{}), fingerprint);
    SmallPowers();
  }

  lemma FailsAtOnce(row: Row, now: int)
    ensures Steps(Going(row), Complete(row.invocation, false, now), INITIAL.(row := Some(CompleteRow(row, false, now))))
  {
    assert Going(row).active - {row.invocation} == map[];
  }

  /** For any two inputs: one failure of the first, and the first failure of the other waits for 10 seconds, not 5. */
  lemma NewInputInheritsDelay(before: string, fingerprint: string, commit: string) returns (x: Execution)
    requires before != fingerprint
    ensures Runs(x) && |x.steps| == 4 && x.steps[2] == Ensure(fingerprint, commit, 2, 0) && x.steps[3].now == 0
    ensures Starts(x.states[2], x.steps[2]) && Failures(x, fingerprint, 3) == 0 && Failures(x, fingerprint, 4) == 1
    ensures x.states[4].row.Some? && x.states[4].row.value.nextAttempt == Some(10) && Backoff(1) == 5
  {
    var first, second := Attempt(before, commit, 1, 0), Attempt(fingerprint, commit, 2, 1);
    x := Execution([], [INITIAL]);
    Begins(before, commit);
    x := Extend(x, Ensure(before, commit, 1, 0), Going(first), fingerprint);
    FailsAtOnce(first, 0);
    x := Extend(x, Complete(1, false, 0), INITIAL.(row := Some(CompleteRow(first, false, 0))), fingerprint);
    x := Extend(x, Ensure(fingerprint, commit, 2, 0), Going(second), fingerprint);
    FailsAtOnce(second, 0);
    x := Extend(x, Complete(2, false, 0), INITIAL.(row := Some(CompleteRow(second, false, 0))), fingerprint);
    SmallPowers();
  }
}
