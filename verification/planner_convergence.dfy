/** What planning and running, repeated, achieve. */
module PlannerConvergence {
  import opened Common
  import opened Graph
  import opened Planner

  /** Nothing downstream of an unreconciled root is left out of the plan. */
  lemma UnreconciledRootSelectsDownstream(p: Problem, live: LiveState, m: string, n: string)
    requires p.Valid() && m in p.modified && !p.Reconciled(live, m)
    requires n in p.target.Keys && Reaches(p.edges, p.target.Keys, m, n)
    ensures n in p.Selection(live)
  {
    assert m in p.Roots(n);
  }

  /** `n` has its target checksum, and has succeeded no earlier than every modified root of it. */
  ghost predicate Current(p: Problem, live: LiveState, n: string)
    requires p.Valid() && n in p.target
  {
    && p.Reconciled(live, n)
    && forall m :: m in p.Roots(n) ==>
         p.Reconciled(live, m) && SuccessOf(live, m).value <= SuccessOf(live, n).value
  }

  /** A candidate is left out of the plan exactly when it is current. */
  lemma LeftOutIffCurrent(p: Problem, live: LiveState, n: string)
    requires p.Valid() && n in p.Candidates()
    ensures n !in p.Selection(live) <==> Current(p, live, n)
  {
    var m :| m in p.modified && Reaches(p.edges, p.target.Keys, m, n);
    assert m in p.Roots(n);
  }

  /** The plan is empty exactly when every modified root and everything downstream of one is current. */
  lemma EmptyPlanIffCurrent(p: Problem, live: LiveState)
    requires p.Valid()
    ensures p.Selection(live) == {} <==> forall n :: n in p.Candidates() ==> Current(p, live, n)
  {
    forall n | n in p.Candidates() ensures n !in p.Selection(live) <==> Current(p, live, n) {
      LeftOutIffCurrent(p, live, n);
    }
  }

  // ---------------------------------------------------------------------------------------------
  // Runs

  /** A node that succeeds at `at`: the stored checksum is kept where the target has none. */
  function Execute(p: Problem, live: LiveState, n: string, at: int): LiveState
    requires n in p.target
  {
    live[n := NodeState(if p.target[n].Some? then p.target[n] else ChecksumOf(live, n), Some(at))]
  }

  /** Nodes with their success times, in the order they succeed. */
  type Run = seq<(string, int)>

  predicate Runnable(p: Problem, run: Run) {
    forall x :: x in run ==> x.0 in p.target
  }

  function ExecuteAll(p: Problem, live: LiveState, run: Run): LiveState
    requires Runnable(p, run)
  {
    if run == [] then live
    else
      var last := run[|run| - 1];
      Execute(p, ExecuteAll(p, live, run[..|run| - 1]), last.0, last.1)
  }

  function NodesOf(run: Run): seq<string> {
    seq(|run|, i requires 0 <= i < |run| => run[i].0)
  }

  /** `run` executes exactly the planned nodes, in topological order, no success earlier than one before it. */
  ghost predicate IsRunOfPlan(p: Problem, live: LiveState, run: Run)
    requires p.Valid()
  {
    && (forall n :: n in NodesOf(run) <==> n in p.Selection(live))
    && Topological(p.edges, NodesOf(run))
    && (forall i, j :: 0 <= i < j < |run| ==> run[i].1 <= run[j].1)
    && (forall i, n :: 0 <= i < |run| && n in live && live[n].lastSuccessAt.Some? ==>
          live[n].lastSuccessAt.value <= run[i].1)
  }

  /** One round: plan against the live state and run the plan to success. */
  ghost predicate Round(p: Problem, before: LiveState, after: LiveState)
    requires p.Valid()
  {
    exists run :: Runnable(p, run) && IsRunOfPlan(p, before, run) &&
      after == ExecuteAll(p, before, run)
  }

  ghost predicate Rounds(p: Problem, states: seq<LiveState>)
    requires p.Valid()
  {
    |states| > 0 && forall i :: 0 <= i < |states| - 1 ==> Round(p, states[i], states[i + 1])
  }

  function LatestSuccess(live: LiveState, names: seq<string>): int {
    if names == [] then 0
    else
      var rest := LatestSuccess(live, names[1..]);
      var success := SuccessOf(live, names[0]);
      if success.Some? && success.value > rest then success.value else rest
  }

  lemma {:induction false} LatestSuccessBounds(live: LiveState, names: seq<string>, n: string)
    requires n in names && SuccessOf(live, n).Some?
    ensures SuccessOf(live, n).value <= LatestSuccess(live, names)
  {
    if n != names[0] { LatestSuccessBounds(live, names[1..], n); }
  }

  /** Every plan can be run. */
  lemma RoundExists(p: Problem, live: LiveState) returns (after: LiveState)
    requires p.Valid()
    ensures Round(p, live, after)
  {
    var order := TopologicalOrderExists(p.edges, p.Selection(live));
    var names := TopologicalOrderExists([], live.Keys);
    var at := LatestSuccess(live, names);
    var run := seq(|order|, i requires 0 <= i < |order| => (order[i], at));
    assert NodesOf(run) == order;
    forall n | n in live && live[n].lastSuccessAt.Some? ensures live[n].lastSuccessAt.value <= at {
      LatestSuccessBounds(live, names, n);
    }
    forall x | x in run ensures x.0 in p.target {
      assert x.0 in order;
    }
    after := ExecuteAll(p, live, run);
  }

  lemma {:induction false} ExecuteAllElsewhere(p: Problem, live: LiveState, run: Run, n: string)
    requires Runnable(p, run)
    requires n !in NodesOf(run)
    ensures n in ExecuteAll(p, live, run) <==> n in live
    ensures n in live ==> ExecuteAll(p, live, run)[n] == live[n]
  {
    if run != [] {
      var front := run[..|run| - 1];
      assert NodesOf(front) == NodesOf(run)[..|run| - 1];
      assert NodesOf(run)[|run| - 1] == run[|run| - 1].0;
      ExecuteAllElsewhere(p, live, front, n);
    }
  }

  lemma {:induction false} ExecuteAllAt(p: Problem, live: LiveState, run: Run, i: nat)
    requires Runnable(p, run)
    requires Topological(p.edges, NodesOf(run)) && i < |run|
    ensures var n := run[i].0; var after := ExecuteAll(p, live, run);
      && n in after && after[n].lastSuccessAt == Some(run[i].1)
      && after[n].checksum == if p.target[n].Some? then p.target[n] else ChecksumOf(live, n)
  {
    var front, last := run[..|run| - 1], run[|run| - 1];
    assert NodesOf(front) == NodesOf(run)[..|run| - 1];
    forall k | 0 <= k < |run| - 1 ensures run[k].0 != last.0 {
      assert NodesOf(run)[k] == run[k].0 && NodesOf(run)[|run| - 1] == last.0;
      ReachesRefl(p.edges, Nodes(p.edges), last.0);
    }
    if i < |run| - 1 {
      ExecuteAllAt(p, live, front, i);
    } else {
      assert last.0 !in NodesOf(front);
      ExecuteAllElsewhere(p, live, front, last.0);
    }
  }

  /** What a round does to one node, and how the success times it gives compare. */
  lemma RoundLeavesRest(p: Problem, before: LiveState, after: LiveState, n: string)
    requires p.Valid() && Round(p, before, after) && n !in p.Selection(before)
    ensures ChecksumOf(after, n) == ChecksumOf(before, n) && SuccessOf(after, n) == SuccessOf(before, n)
  {
    var run :| Runnable(p, run) && IsRunOfPlan(p, before, run) &&
      after == ExecuteAll(p, before, run);
    ExecuteAllElsewhere(p, before, run, n);
  }

  lemma RoundRuns(p: Problem, before: LiveState, after: LiveState, n: string)
    requires p.Valid() && Round(p, before, after) && n in p.Selection(before)
    ensures SuccessOf(after, n).Some?
    ensures ChecksumOf(after, n) == if p.target[n].Some? then p.target[n] else ChecksumOf(before, n)
    ensures forall m :: SuccessOf(before, m).Some? ==> SuccessOf(before, m).value <= SuccessOf(after, n).value
  {
    var run :| Runnable(p, run) && IsRunOfPlan(p, before, run) && after == ExecuteAll(p, before, run);
    var i := PlannedAt(p, before, run, n);
    ExecuteAllAt(p, before, run, i);
  }

  lemma RoundRunsInOrder(p: Problem, before: LiveState, after: LiveState, m: string, n: string)
    requires p.Valid() && Round(p, before, after) && n in p.Selection(before) && m in p.Selection(before)
    requires Reaches(p.edges, Nodes(p.edges), m, n)
    ensures SuccessOf(after, m).Some? && SuccessOf(after, n).Some?
    ensures SuccessOf(after, m).value <= SuccessOf(after, n).value
  {
    var run :| Runnable(p, run) && IsRunOfPlan(p, before, run) && after == ExecuteAll(p, before, run);
    var j, i := PlannedInOrder(p, before, run, m, n);
    SuccessAt(p, before, run, i);
    SuccessAt(p, before, run, j);
  }

  lemma SuccessAt(p: Problem, live: LiveState, run: Run, i: nat)
    requires Runnable(p, run) && Topological(p.edges, NodesOf(run)) && i < |run|
    ensures SuccessOf(ExecuteAll(p, live, run), run[i].0) == Some(run[i].1)
  {
    ExecuteAllAt(p, live, run, i);
  }

  lemma PlannedInOrder(p: Problem, live: LiveState, run: Run, m: string, n: string) returns (j: nat, i: nat)
    requires p.Valid() && IsRunOfPlan(p, live, run) && m in p.Selection(live) && n in p.Selection(live)
    requires Reaches(p.edges, Nodes(p.edges), m, n)
    ensures j < |run| && i < |run| && run[j].0 == m && run[i].0 == n && run[j].1 <= run[i].1
  {
    j := PlannedAt(p, live, run, m);
    i := PlannedAt(p, live, run, n);
    if i < j { assert false; }
  }

  lemma PlannedAt(p: Problem, live: LiveState, run: Run, n: string) returns (i: nat)
    requires p.Valid() && IsRunOfPlan(p, live, run) && n in p.Selection(live)
    ensures i < |run| && run[i].0 == n && NodesOf(run)[i] == n
  {
    assert n in NodesOf(run);
    i :| 0 <= i < |run| && NodesOf(run)[i] == n;
  }

  // ---------------------------------------------------------------------------------------------
  // Convergence

  /** No candidate keeps a stored checksum where the target has none: such a node can never match. */
  ghost predicate Settleable(p: Problem, live: LiveState)
    requires p.Valid()
  {
    forall n :: n in p.Candidates() && p.target[n].None? ==> ChecksumOf(live, n).None?
  }

  lemma SettleableKept(p: Problem, before: LiveState, after: LiveState)
    requires p.Valid() && Round(p, before, after)
    ensures Settleable(p, before) <==> Settleable(p, after)
  {
    forall n | n in p.Candidates() && p.target[n].None?
      ensures ChecksumOf(after, n) == ChecksumOf(before, n)
    {
      if n in p.Selection(before) {
        RoundRuns(p, before, after, n);
      } else {
        RoundLeavesRest(p, before, after, n);
      }
    }
  }

  /** One round reconciles every candidate. */
  lemma RoundReconciles(p: Problem, before: LiveState, after: LiveState, n: string)
    requires p.Valid() && Settleable(p, before) && Round(p, before, after) && n in p.Candidates()
    ensures p.Reconciled(after, n)
  {
    if n in p.Selection(before) {
      RoundRuns(p, before, after, n);
    } else {
      LeftOutIffCurrent(p, before, n);
      RoundLeavesRest(p, before, after, n);
    }
  }

  lemma RootIsCandidate(p: Problem, m: string, n: string)
    requires p.Valid() && m in p.Roots(n)
    ensures m in p.Candidates() && m in p.Roots(m) && Reaches(p.edges, Nodes(p.edges), m, n)
  {
    ReachesRefl(p.edges, p.target.Keys, m);
    ReachesWiden(p.edges, p.target.Keys, m, n);
  }

  /** What is stale after a round was not run in it, and has a modified root above it that was. */
  lemma StaleAfterRound(p: Problem, before: LiveState, after: LiveState, n: string) returns (m: string)
    requires p.Valid() && Settleable(p, before) && Round(p, before, after) && n in p.Selection(after)
    ensures n !in p.Selection(before)
    ensures m in p.Roots(n) && m != n && m in p.Selection(before)
  {
    RoundReconciles(p, before, after, n);
    m :| m in p.Roots(n) &&
      (!p.Reconciled(after, m) || SuccessOf(after, n).value < SuccessOf(after, m).value);
    RootIsCandidate(p, m, n);
    RoundReconciles(p, before, after, m);
    if n in p.Selection(before) {
      RoundRuns(p, before, after, n);
      if m in p.Selection(before) {
        RoundRunsInOrder(p, before, after, m, n);
      } else {
        RoundLeavesRest(p, before, after, m);
      }
      assert false;
    }
    RoundLeavesRest(p, before, after, n);
    if m !in p.Selection(before) {
      RoundLeavesRest(p, before, after, m);
      LeftOutIffCurrent(p, before, n);
      assert false;
    }
  }

  /** Modified roots strictly above `n`. */
  ghost function RootsAbove(p: Problem, n: string): set<string> {
    p.Roots(n) - {n}
  }

  lemma SubsetCardinality(a: set<string>, b: set<string>)
    requires a <= b
    ensures |a| <= |b|
  {
    assert b == a + (b - a);
  }

  lemma RootsAboveGrow(p: Problem, m: string, n: string)
    requires p.Valid() && m in p.Roots(n) && m != n
    ensures |RootsAbove(p, m)| + 1 <= |RootsAbove(p, n)|
  {
    forall k | k in p.Roots(m) ensures k in p.Roots(n) && k != n {
      ReachesTransitive(p.edges, p.target.Keys, k, m, n);
      if k == n {
        ReachesWiden(p.edges, p.target.Keys, m, n);
        ReachesWiden(p.edges, p.target.Keys, n, m);
        AcyclicAntisymmetric(p.edges, m, n);
      }
    }
    RootIsCandidate(p, m, n);
    assert RootsAbove(p, m) + {m} <= RootsAbove(p, n);
    SubsetCardinality(RootsAbove(p, m) + {m}, RootsAbove(p, n));
  }

  /** A modified root planned while something below it is not has a modified root above it. */
  lemma PlannedAboveUnplanned(p: Problem, live: LiveState, m: string, n: string)
    requires p.Valid() && n in p.Candidates() && n !in p.Selection(live)
    requires m in p.Roots(n) && m in p.Selection(live)
    ensures |RootsAbove(p, m)| >= 1
  {
    LeftOutIffCurrent(p, live, n);
    var k :| k in p.Roots(m) && (!p.Reconciled(live, k) || SuccessOf(live, m).None? ||
      SuccessOf(live, m).value < SuccessOf(live, k).value);
    if k == m { assert false; }
    assert k in RootsAbove(p, m);
    SubsetCardinality({k}, RootsAbove(p, m));
  }

  /** Each round pushes what is still stale further down: it has ever more modified roots above it. */
  lemma {:induction false} StaleDepth(p: Problem, states: seq<LiveState>, k: nat, n: string)
    requires p.Valid() && Rounds(p, states) && Settleable(p, states[0])
    requires 1 <= k < |states| && n in p.Selection(states[k])
    ensures |RootsAbove(p, n)| >= k + 1
  {
    SettleableAlong(p, states, k - 1);
    assert Round(p, states[k - 1], states[k - 1 + 1]);
    var m := StaleAfterRound(p, states[k - 1], states[k], n);
    if k == 1 {
      PlannedAboveUnplanned(p, states[0], m, n);
    } else {
      StaleDepth(p, states, k - 1, m);
    }
    RootsAboveGrow(p, m, n);
  }

  lemma {:induction false} SettleableAlong(p: Problem, states: seq<LiveState>, k: nat)
    requires p.Valid() && Rounds(p, states) && k < |states|
    ensures Settleable(p, states[0]) <==> Settleable(p, states[k])
  {
    if k > 0 {
      SettleableAlong(p, states, k - 1);
      assert Round(p, states[k - 1], states[k - 1 + 1]);
      SettleableKept(p, states[k - 1], states[k]);
    }
  }

  /** After as many rounds as there are modified nodes the plan is empty, exactly for settleable states. */
  lemma PlannerConverges(p: Problem, states: seq<LiveState>, k: nat)
    requires p.Valid() && Rounds(p, states) && |p.modified| <= k < |states|
    ensures Settleable(p, states[0]) <==> p.Selection(states[k]) == {}
  {
    SettleableAlong(p, states, k);
    if Settleable(p, states[0]) {
      if n :| n in p.Selection(states[k]) {
        var m :| m in p.modified && Reaches(p.edges, p.target.Keys, m, n);
        SubsetCardinality({m}, p.modified);
        StaleDepth(p, states, k, n);
        SubsetCardinality(RootsAbove(p, n), p.modified);
        assert false;
      }
    } else {
      var n :| n in p.Candidates() && p.target[n].None? && ChecksumOf(states[k], n).Some?;
      assert n in p.Selection(states[k]);
    }
  }

  /** One round is enough when every modified root starts out unreconciled. */
  lemma OneRoundFromUnreconciled(p: Problem, before: LiveState, after: LiveState)
    requires p.Valid() && Round(p, before, after)
    requires forall m :: m in p.modified ==> !p.Reconciled(before, m)
    ensures p.Selection(after) == {} <==> Settleable(p, before)
  {
    if Settleable(p, before) {
      if n :| n in p.Selection(after) {
        var m := StaleAfterRound(p, before, after, n);
        UnreconciledRootSelectsDownstream(p, before, m, n);
        assert false;
      }
    } else {
      SettleableKept(p, before, after);
      var n :| n in p.Candidates() && p.target[n].None? && ChecksumOf(after, n).Some?;
      assert n in p.Selection(after);
    }
  }

  /** From a state that is not settleable no number of rounds empties the plan. */
  lemma UnsettleableNeverEmpties(p: Problem, states: seq<LiveState>, k: nat)
    requires p.Valid() && Rounds(p, states) && !Settleable(p, states[0]) && k < |states|
    ensures p.Selection(states[k]) != {}
  {
    SettleableAlong(p, states, k);
    var n :| n in p.Candidates() && p.target[n].None? && ChecksumOf(states[k], n).Some?;
    assert n in p.Selection(states[k]);
  }

  /** For any identifier: a model whose target manifest has no checksum for it, over a stored one. However often the
      plan is run, the model is planned again. */
  lemma LostChecksumIsPlannedForEver(n: string, checksum: string, states: seq<LiveState>, k: nat)
    requires var baseline := [ManifestNode(n, Some("model"), Some(checksum))];
      var p := ProblemOf(baseline, [ManifestNode(n, Some("model"), None)], []);
      p.Valid() && Rounds(p, states) && ChecksumOf(states[0], n) == Some(checksum) && k < |states|
    ensures var baseline := [ManifestNode(n, Some("model"), Some(checksum))];
      ProblemOf(baseline, [ManifestNode(n, Some("model"), None)], []).Selection(states[k]) == {n}
  {
    var baseline, target := [ManifestNode(n, Some("model"), Some(checksum))], [ManifestNode(n, Some("model"), None)];
    var p := ProblemOf(baseline, target, []);
    OneRow(baseline[0]);
    OneRow(target[0]);
    assert target[0] in target;
    assert p.modified == {n} && p.target == map[n := None];
    ReachesRefl([], p.target.Keys, n);
    assert n in p.Candidates() && p.Candidates() <= {n};
    UnsettleableNeverEmpties(p, states, k);
  }

  lemma OneRow(row: ManifestNode)
    ensures ChecksumsById([row]) == map[row.uniqueId := row.checksum]
  {
    assert [row][..0] == [];
  }

  // ---------------------------------------------------------------------------------------------
  // One round is not enough in general: `x -> w -> u`, with `x` and `w` modified and reconciled at
  // times 10 and 5, and `u` at 12. Only `w` is planned, and running it makes `u` stale.

  function Chain(x: string, w: string, u: string): Problem {
    var c := Some("1");
    Problem({x, w}, map[x := c, w := c, u := c], [(x, w), (w, u)])
  }

  function ChainState(x: string, w: string, u: string, wAt: int): LiveState {
    var c := Some("1");
    map[x := NodeState(c, Some(10)), w := NodeState(c, Some(wAt)), u := NodeState(c, Some(12))]
  }

  lemma ChainReaches(x: string, w: string, u: string, allowed: set<string>, a: string, b: string)
    requires x != w && w != u && x != u && {x, w, u} <= allowed && a in {x, w, u}
    ensures Reaches(Chain(x, w, u).edges, allowed, a, b) <==>
      a == b || (a == x && b in {w, u}) || (a == w && b == u)
  {
    var es := Chain(x, w, u).edges;
    var below := if a == x then {x, w, u} else if a == w then {w, u} else {u};
    assert es[0] == (x, w) && es[1] == (w, u);
    if Reaches(es, allowed, a, b) {
      ClosedHoldsReachable(es, allowed, below, a, b);
    }
    ReachesRefl(es, allowed, a);
    if a == x {
      ReachesSnoc(es, allowed, x, x, w);
      ReachesSnoc(es, allowed, x, w, u);
    } else if a == w {
      ReachesSnoc(es, allowed, w, w, u);
    }
  }

  lemma ChainValid(x: string, w: string, u: string)
    requires x != w && w != u && x != u
    ensures Chain(x, w, u).Valid()
  {
    var es := Chain(x, w, u).edges;
    assert es[0] == (x, w) && es[1] == (w, u);
    assert (x, w).0 in Nodes(es) && (x, w).1 in Nodes(es) && (w, u).1 in Nodes(es);
    forall a, b | (a, b) in es ensures !Reaches(es, Nodes(es), b, a) {
      ChainReaches(x, w, u, Nodes(es), b, a);
    }
  }

  lemma ChainRoots(x: string, w: string, u: string, n: string)
    requires x != w && w != u && x != u && n in {x, w, u}
    ensures n in Chain(x, w, u).Candidates()
    ensures Chain(x, w, u).Roots(n) == if n == x then {x} else {x, w}
  {
    ChainReaches(x, w, u, {x, w, u}, x, n);
    ChainReaches(x, w, u, {x, w, u}, w, n);
    assert Chain(x, w, u).target.Keys == {x, w, u};
    assert x in Chain(x, w, u).modified;
  }

  /** The plan at each time `w` may have: `w` itself while it trails `x`, then `u` once `w` passes it. */
  lemma ChainPlan(x: string, w: string, u: string, wAt: int)
    requires x != w && w != u && x != u && wAt in {5, 13}
    ensures Chain(x, w, u).Valid()
    ensures Chain(x, w, u).Selection(ChainState(x, w, u, wAt)) == if wAt == 5 then {w} else {u}
  {
    ChainValid(x, w, u);
    var p, live := Chain(x, w, u), ChainState(x, w, u, wAt);
    forall n | n in p.target ensures n in p.Selection(live) <==> n == if wAt == 5 then w else u {
      ChainRoots(x, w, u, n);
      if n != x { assert x in p.Roots(n) && w in p.Roots(n); }
    }
  }

  lemma ChainRound(x: string, w: string, u: string)
    requires x != w && w != u && x != u && Chain(x, w, u).Valid()
    requires Chain(x, w, u).Selection(ChainState(x, w, u, 5)) == {w}
    ensures Round(Chain(x, w, u), ChainState(x, w, u, 5), ChainState(x, w, u, 13))
  {
    var p, live := Chain(x, w, u), ChainState(x, w, u, 5);
    var run: Run := [(w, 13)];
    assert NodesOf(run) == [w];
    assert Runnable(p, run) && IsRunOfPlan(p, live, run);
    assert run[..0] == [];
    assert ExecuteAll(p, live, run[..0]) == live;
    assert ExecuteAll(p, live, run) == Execute(p, live, w, 13) == ChainState(x, w, u, 13);
  }

  lemma ChainSettleable(x: string, w: string, u: string, live: LiveState)
    requires Chain(x, w, u).Valid()
    ensures Settleable(Chain(x, w, u), live)
  {
  }

  /** For any three identifiers: two modified nodes, a settleable state, and a plan left after one round. */
  lemma OneRoundIsNotEnough(x: string, w: string, u: string)
    requires x != w && w != u && x != u
    ensures Chain(x, w, u).Valid() && Settleable(Chain(x, w, u), ChainState(x, w, u, 5))
    ensures Round(Chain(x, w, u), ChainState(x, w, u, 5), ChainState(x, w, u, 13))
    ensures Chain(x, w, u).Selection(ChainState(x, w, u, 5)) == {w}
    ensures Chain(x, w, u).Selection(ChainState(x, w, u, 13)) == {u}
  {
    ChainPlan(x, w, u, 5);
    ChainPlan(x, w, u, 13);
    ChainRound(x, w, u);
    ChainSettleable(x, w, u, ChainState(x, w, u, 5));
  }
}
