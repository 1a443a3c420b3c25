/**
 * Running everything that is stale, in any interleaving in which a node starts only after its stale parents have
 * finished: what is left stale afterwards.
 */
module WatermarkCourse {
  import opened Common
  import opened Graph
  import opened AncestorIndex
  import opened Watermarks
  import opened WatermarkSafety
  import opened WatermarkConvergence

  /** The stale list of the events that are unsatisfied now. */
  ghost function StaleNow(cfg: Config, st: State): set<string> {
    StaleNodes(cfg, st, UnsatisfiedSources(st), UnsatisfiedEvents(st))
  }

  ghost predicate OutcomeAt(cfg: Config, states: seq<State>, i: nat, j: nat)
    requires i <= j < |states|
  {
    Outcome(cfg, states[i], states[j])
  }

  /**
   * A stale node starts, at a state no earlier than the one at which each of its stale parents has finished, and when
   * it has finished it has come up to every candidate of its start.
   */
  ghost predicate RunsAt(cfg: Config, states: seq<State>, starts: map<string, nat>, ends: map<string, nat>, n: string)
    requires states != []
  {
    && n in starts && n in ends && starts[n] < ends[n] < |states|
    && Raised(states[ends[n]], n, Candidates(cfg, states[starts[n]], n, false))
    && forall p :: (p, n) in cfg.manifest.edges && p in StaleNow(cfg, states[0]) ==> p in ends && ends[p] <= starts[n]
  }

  /** States without new events, in which everything that is stale at first runs successfully. */
  ghost predicate Course(cfg: Config, states: seq<State>, starts: map<string, nat>, ends: map<string, nat>) {
    && states != [] && Inv(cfg, states[0])
    && (forall i, j :: 0 <= i <= j < |states| ==> OutcomeAt(cfg, states, i, j))
    && (forall n :: n in StaleNow(cfg, states[0]) ==> RunsAt(cfg, states, starts, ends, n))
  }

  // ---------------------------------------------------------------------------------------------
  // What a course achieves

  /** A node of the manifest that is not stale at first, or has finished since, has caught up. */
  lemma {:induction false} CatchesUp(cfg: Config, states: seq<State>, starts: map<string, nat>, ends: map<string, nat>,
                                     n: string, k: nat)
    requires Runnable(cfg) && HasAncestors(cfg) && Course(cfg, states, starts, ends) && k < |states|
    requires AllFed(cfg, UnsatisfiedSources(states[0])) && n in cfg.manifest.NonSource()
    requires n in StaleNow(cfg, states[0]) ==> n in ends && ends[n] <= k
    ensures CaughtUp(cfg, states[k], UnsatisfiedSources(states[0]), n)
    decreases if n in StaleNow(cfg, states[0]) then ends[n] else 0
  {
    var keys := UnsatisfiedSources(states[0]);
    if n !in StaleNow(cfg, states[0]) {
      NotStaleIsCaughtUp(cfg, states[0], states[0], n);
      assert OutcomeAt(cfg, states, 0, k);
      CaughtUpForward(cfg, states[0], states[k], keys, n);
    } else {
      assert RunsAt(cfg, states, starts, ends, n);
      var before, after := states[starts[n]], states[ends[n]];
      forall p | (p, n) in cfg.manifest.edges && p in cfg.manifest.NonSource() ensures CaughtUp(cfg, before, keys, p) {
        CatchesUp(cfg, states, starts, ends, p, starts[n]);
      }
      assert OutcomeAt(cfg, states, 0, starts[n]) && OutcomeAt(cfg, states, starts[n], ends[n]);
      RunCatchesUp(cfg, before, after, keys, n);
      assert OutcomeAt(cfg, states, ends[n], k);
      CaughtUpForward(cfg, after, states[k], keys, n);
    }
  }

  /** Where no event of a source is reached, its pointer and its newest event stay. */
  lemma UnreachedStaysUnsatisfied(cfg: Config, st: State, st': State, s: string)
    requires Outcome(cfg, st, st') && ReachedEvents(cfg, st', s) == {} && s in UnsatisfiedSources(st)
    ensures s in UnsatisfiedSources(st')
  {
    assert Newest(st', s) == Newest(st, s);
  }

  /** Where a course cannot settle everything, some source that it does not settle stays unsatisfied. */
  lemma UnsettledStays(cfg: Config, st: State, st': State) returns (s: string)
    requires Outcome(cfg, st, st') && !Settles(cfg, UnsatisfiedSources(st))
    ensures s in UnsatisfiedSources(st) && s in UnsatisfiedSources(st')
    ensures if HasAncestors(cfg) then exists n :: Unfed(cfg, s, n)
      else UnsatisfiedSources(st) <= UnsatisfiedSources(st')
  {
    if HasAncestors(cfg) {
      var n: string;
      s, n := UnfedExists(cfg, UnsatisfiedSources(st));
      UnfedNotReached(cfg, st', s, n);
      UnreachedStaysUnsatisfied(cfg, st, st', s);
    } else {
      forall t | t in UnsatisfiedSources(st) ensures t in UnsatisfiedSources(st') {
        UnreachedStaysUnsatisfied(cfg, st, st', t);
      }
      var n := MemberOf(cfg.manifest.Downstream(UnsatisfiedSources(st)));
      s := MemberOf(UnsatisfiedSources(st));
    }
  }

  /** Against the events unsatisfied at first, the list is empty afterwards exactly when a course settles them. */
  lemma InitialStaleAfter(cfg: Config, states: seq<State>, starts: map<string, nat>, ends: map<string, nat>)
    requires Runnable(cfg) && Course(cfg, states, starts, ends)
    ensures var st, st' := states[0], states[|states| - 1];
      StaleNodes(cfg, st', UnsatisfiedSources(st), UnsatisfiedEvents(st)) == {} <==>
        Settles(cfg, UnsatisfiedSources(st))
  {
    var st, st', last := states[0], states[|states| - 1], |states| - 1;
    var keys := UnsatisfiedSources(st);
    assert OutcomeAt(cfg, states, 0, last);
    if !HasAncestors(cfg) {
      NoTargetsNoKeys(st);
    } else if AllFed(cfg, keys) {
      forall n | n in cfg.manifest.NonSource() ensures n !in StaleNodes(cfg, st', keys, UnsatisfiedEvents(st)) {
        if n in StaleNow(cfg, st) { assert RunsAt(cfg, states, starts, ends, n); }
        CatchesUp(cfg, states, starts, ends, n, last);
        NotStaleIsCaughtUp(cfg, st, st', n);
      }
    } else {
      var s, n := UnfedExists(cfg, keys);
      UnfedNotReached(cfg, st', s, n);
      NotStaleIsCaughtUp(cfg, st, st', n);
    }
  }

  /**
   * When everything that is stale has run: no source has become unsatisfied, and the stale list is empty, if and only
   * if every listed node is fed by its source or, without an index, there was nothing to list.
   */
  lemma StaleRunConverges(cfg: Config, states: seq<State>, starts: map<string, nat>, ends: map<string, nat>)
    requires Runnable(cfg) && Course(cfg, states, starts, ends)
    ensures var st, st' := states[0], states[|states| - 1];
      && UnsatisfiedSources(st') <= UnsatisfiedSources(st)
      && (StaleNow(cfg, st') == {} <==> Settles(cfg, UnsatisfiedSources(st)))
      && (StaleNodes(cfg, st', UnsatisfiedSources(st), UnsatisfiedEvents(st)) == {} <==>
            Settles(cfg, UnsatisfiedSources(st)))
  {
    var st, st' := states[0], states[|states| - 1];
    assert OutcomeAt(cfg, states, 0, |states| - 1);
    forall s ensures Newest(st', s) == Newest(st, s) {}
    StaleShrinks(cfg, st, st');
    InitialStaleAfter(cfg, states, starts, ends);
    if !Settles(cfg, UnsatisfiedSources(st)) {
      var s := UnsettledStays(cfg, st, st');
      StaysStale(cfg, st, st', s);
    }
  }

  lemma StaysStale(cfg: Config, st: State, st': State, s: string)
    requires Outcome(cfg, st, st') && !Settles(cfg, UnsatisfiedSources(st)) && s in UnsatisfiedSources(st')
    requires UnsatisfiedSources(st') <= UnsatisfiedSources(st)
    requires if HasAncestors(cfg) then exists n :: Unfed(cfg, s, n)
      else UnsatisfiedSources(st) <= UnsatisfiedSources(st')
    ensures StaleNow(cfg, st') != {}
  {
    NoTargetsNoKeys(st');
    if HasAncestors(cfg) {
      var n :| Unfed(cfg, s, n);
      UnfedNotReached(cfg, st', s, n);
      NotStaleIsCaughtUp(cfg, st', st', n);
    } else {
      assert UnsatisfiedSources(st') == UnsatisfiedSources(st);
    }
  }

  // ---------------------------------------------------------------------------------------------
  // One node after the other

  function NodesOf(runs: seq<NodeRun>): seq<string> {
    seq(|runs|, i requires 0 <= i < |runs| => runs[i].node)
  }

  /** `nodes` lists exactly the stale nodes of the unsatisfied events, in topological order. */
  ghost predicate ListsStale(cfg: Config, st: State, nodes: seq<string>) {
    && (forall n :: n in nodes <==> n in StaleNodes(cfg, st, UnsatisfiedSources(st), UnsatisfiedEvents(st)))
    && Topological(cfg.manifest.edges, nodes)
  }

  ghost predicate RunsStale(cfg: Config, st: State, runs: seq<NodeRun>) {
    ListsStale(cfg, st, NodesOf(runs))
  }

  lemma OutcomeJoins(cfg: Config, a: State, b: State, c: State)
    requires Outcome(cfg, a, b) && Outcome(cfg, b, c)
    ensures Outcome(cfg, a, c)
  {
    ForwardJoins(a, b, c);
    forall s | s in c.satisfied && !(s in a.satisfied && c.satisfied[s] == a.satisfied[s])
      ensures c.satisfied[s] in ReachedEvents(cfg, c, s)
    {
      if s in b.satisfied && c.satisfied[s] == b.satisfied[s] {
        AllReachedForward(cfg, b, c, s, b.satisfied[s]);
      }
    }
  }

  ghost predicate OnNodes(cfg: Config, runs: seq<NodeRun>) {
    forall i :: 0 <= i < |runs| ==> runs[i].node in cfg.manifest.NonSource()
  }

  lemma RunProgress(cfg: Config, states: seq<State>, runs: seq<NodeRun>, i: nat)
    requires Executes(cfg, states, runs) && i < |runs| && Inv(cfg, states[i]) && OnNodes(cfg, runs)
    ensures Progress(cfg, states[i], runs[i].node, states[i + 1])
  {
    assert ExecutesAt(cfg, states, runs, i);
    ExecuteProgress(cfg, states[i], runs[i], states[i + 1]);
  }

  lemma {:induction false} InvAlong(cfg: Config, states: seq<State>, runs: seq<NodeRun>, k: nat)
    requires Executes(cfg, states, runs) && Inv(cfg, states[0]) && OnNodes(cfg, runs) && k <= |runs|
    ensures Inv(cfg, states[k])
  {
    if k > 0 {
      InvAlong(cfg, states, runs, k - 1);
      RunProgress(cfg, states, runs, k - 1);
    }
  }

  lemma {:induction false} RunsOutcome(cfg: Config, states: seq<State>, runs: seq<NodeRun>, i: nat, j: nat)
    requires Executes(cfg, states, runs) && Inv(cfg, states[0]) && OnNodes(cfg, runs) && i <= j <= |runs|
    ensures OutcomeAt(cfg, states, i, j)
  {
    if i < j {
      RunsOutcome(cfg, states, runs, i, j - 1);
      RunProgress(cfg, states, runs, j - 1);
      OutcomeJoins(cfg, states[i], states[j - 1], states[j]);
    } else {
      InvAlong(cfg, states, runs, i);
    }
  }

  ghost function PlaceOf(nodes: seq<string>, n: string): (i: nat)
    requires n in nodes
    ensures i < |nodes| && nodes[i] == n
  {
    var i :| 0 <= i < |nodes| && nodes[i] == n;
    i
  }

  ghost function StartsOf(nodes: seq<string>): map<string, nat> {
    map n | n in nodes :: PlaceOf(nodes, n)
  }

  ghost function EndsOf(nodes: seq<string>): map<string, nat> {
    map n | n in nodes :: PlaceOf(nodes, n) + 1
  }

  lemma ParentRunsEarlier(cfg: Config, nodes: seq<string>, p: string, n: string)
    requires Acyclic(cfg.manifest.edges) && Topological(cfg.manifest.edges, nodes)
    requires (p, n) in cfg.manifest.edges && p in nodes && n in nodes
    ensures PlaceOf(nodes, p) < PlaceOf(nodes, n)
  {
    var es := cfg.manifest.edges;
    EdgeEnds(es, p, n);
    ReachesRefl(es, Nodes(es), p);
    ReachesSnoc(es, Nodes(es), p, p, n);
    ReachesRefl(es, Nodes(es), n);
  }

  lemma ListedRunsAt(cfg: Config, states: seq<State>, runs: seq<NodeRun>, n: string)
    requires Runnable(cfg) && Executes(cfg, states, runs) && Inv(cfg, states[0]) && OnNodes(cfg, runs)
    requires RunsStale(cfg, states[0], runs) && n in StaleNow(cfg, states[0])
    ensures RunsAt(cfg, states, StartsOf(NodesOf(runs)), EndsOf(NodesOf(runs)), n)
  {
    var nodes := NodesOf(runs);
    var i := PlaceOf(nodes, n);
    InvAlong(cfg, states, runs, i);
    RunProgress(cfg, states, runs, i);
    forall p | (p, n) in cfg.manifest.edges && p in StaleNow(cfg, states[0])
      ensures p in EndsOf(nodes) && EndsOf(nodes)[p] <= i
    {
      ParentRunsEarlier(cfg, nodes, p, n);
    }
  }

  /** Running exactly the stale list, node by node in topological order, is a course. */
  lemma RunIsCourse(cfg: Config, states: seq<State>, runs: seq<NodeRun>)
    requires Runnable(cfg) && Executes(cfg, states, runs) && Inv(cfg, states[0]) && RunsStale(cfg, states[0], runs)
    ensures Course(cfg, states, StartsOf(NodesOf(runs)), EndsOf(NodesOf(runs)))
  {
    forall i | 0 <= i < |runs| ensures runs[i].node in cfg.manifest.NonSource() {
      assert NodesOf(runs)[i] in NodesOf(runs);
      StaleAreNonSource(cfg, states[0], runs[i].node);
    }
    forall i, j | 0 <= i <= j < |states| ensures OutcomeAt(cfg, states, i, j) {
      RunsOutcome(cfg, states, runs, i, j);
    }
    forall n | n in StaleNow(cfg, states[0])
      ensures RunsAt(cfg, states, StartsOf(NodesOf(runs)), EndsOf(NodesOf(runs)), n)
    {
      ListedRunsAt(cfg, states, runs, n);
    }
  }

  // ---------------------------------------------------------------------------------------------
  // Such runs exist

  /** Some listing of what a finish would find staged. */
  lemma RunExists(cfg: Config, st: State, n: string) returns (r: NodeRun)
    ensures r.node == n && ListsStaged(cfg, st, r)
  {
    var staged := Started(cfg, st, 0, n).staged;
    var sources := set x | x in staged && x.run == 0 && x.node == n :: x.source;
    var order := TopologicalOrderExists([], sources);
    r := NodeRun(0, n, order);
    forall s ensures s in order <==> StageKey(0, n, s) in staged {
      assert StageKey(0, n, s).source == s;
    }
  }

  lemma ExecutesMore(cfg: Config, states: seq<State>, runs: seq<NodeRun>, r: NodeRun)
    requires Executes(cfg, states, runs) && ListsStaged(cfg, states[|runs|], r)
    ensures Executes(cfg, states + [Execute(cfg, states[|runs|], r)], runs + [r])
    ensures NodesOf(runs + [r]) == NodesOf(runs) + [r.node]
  {
    var more := states + [Execute(cfg, states[|runs|], r)];
    forall i | 0 <= i < |runs + [r]| ensures ExecutesAt(cfg, more, runs + [r], i) {
      if i < |runs| {
        assert ExecutesAt(cfg, states, runs, i);
        assert more[i] == states[i] && more[i + 1] == states[i + 1];
      }
    }
  }

  lemma {:induction false} RunOfNodesExists(cfg: Config, st: State, nodes: seq<string>)
    returns (states: seq<State>, runs: seq<NodeRun>)
    ensures Executes(cfg, states, runs) && states[0] == st && NodesOf(runs) == nodes
  {
    if nodes == [] {
      states, runs := [st], [];
    } else {
      states, runs := RunOfNodesExists(cfg, st, nodes[..|nodes| - 1]);
      var r := RunExists(cfg, states[|runs|], nodes[|nodes| - 1]);
      ExecutesMore(cfg, states, runs, r);
      states, runs := states + [Execute(cfg, states[|runs|], r)], runs + [r];
    }
  }

  /** Every stale list can be run, from every state. */
  lemma StaleRunExists(cfg: Config, st: State) returns (states: seq<State>, runs: seq<NodeRun>)
    requires Runnable(cfg)
    ensures Executes(cfg, states, runs) && states[0] == st && RunsStale(cfg, st, runs)
  {
    var stale := StaleNodes(cfg, st, UnsatisfiedSources(st), UnsatisfiedEvents(st));
    var order := TopologicalOrderExists(cfg.manifest.edges, stale);
    states, runs := RunOfNodesExists(cfg, st, order);
  }

  // ---------------------------------------------------------------------------------------------
  // Any interleaving

  /** Sources never run. */
  ghost predicate RunsNodesOnly(cfg: Config, h: Execution) {
    forall i :: 0 <= i < |h.steps| ==> NodesOnly(cfg, h.steps[i])
  }

  /** Without an index no check succeeds, so no pointer is ever set. */
  lemma {:induction false} PointersNeedIndex(cfg: Config, h: Execution, k: nat)
    requires Runs(cfg, h) && k <= |h.steps| && !HasAncestors(cfg)
    ensures h.states[k].satisfied == map[] && h.states[k].passed == {}
  {
    if k > 0 {
      PointersNeedIndex(cfg, h, k - 1);
      assert h.states[k - 1 + 1] == Apply(h.states[k - 1], h.steps[k - 1]);
    }
  }

  ghost predicate AddsNone(h: Execution, a: nat, b: nat)
    requires b <= |h.steps|
  {
    forall k :: a <= k < b ==> !h.steps[k].NewEvent?
  }

  lemma {:induction false} EventsStay(cfg: Config, h: Execution, a: nat, b: nat)
    requires Runs(cfg, h) && a <= b <= |h.steps| && AddsNone(h, a, b)
    ensures h.states[b].events == h.states[a].events
  {
    if a < b {
      EventsStay(cfg, h, a, b - 1);
      assert h.states[b - 1 + 1] == Apply(h.states[b - 1], h.steps[b - 1]);
    }
  }

  lemma ExecutionOutcome(cfg: Config, h: Execution, a: nat, b: nat)
    requires Runs(cfg, h) && a <= b <= |h.steps| && AddsNone(h, a, b)
    requires RunsNodesOnly(cfg, h)
    ensures Outcome(cfg, h.states[a], h.states[b])
  {
    AlwaysInv(cfg, h, b);
    ExecutionForward(cfg, h, a, b);
    EventsStay(cfg, h, a, b);
    PointersAlwaysReached(cfg, h, b);
    if !HasAncestors(cfg) { PointersNeedIndex(cfg, h, b); }
  }

  /** Between states `i` and `j` some run starts `n` and commits each of its candidates. */
  ghost predicate RanBetween(h: Execution, n: string, i: nat, j: nat) {
    && i < j <= |h.steps| == |h.states| - 1 && h.steps[i].Start? && h.steps[i].node == n
    && forall s :: s in h.steps[i].candidates ==> CommittedBetween(h, Key(n, s), h.steps[i].candidates[s], i, j)
  }

  ghost predicate CommittedBetween(h: Execution, key: Key, e: int, i: nat, j: nat)
    requires |h.states| == |h.steps| + 1
  {
    exists c :: i < c < j && CommitsAt(h, c, key, e)
  }

  lemma RanIsRaised(cfg: Config, h: Execution, n: string, i: nat, j: nat)
    requires Runs(cfg, h) && RanBetween(h, n, i, j) && NodesOnly(cfg, h.steps[i])
    ensures Raised(h.states[j], n, Candidates(cfg, h.states[i], n, false))
  {
    var candidates := h.steps[i].candidates;
    forall s | s in candidates
      ensures Key(n, s) in h.states[j].marks && candidates[s] <= h.states[j].marks[Key(n, s)]
    {
      assert CommittedBetween(h, Key(n, s), candidates[s], i, j);
      var c :| i < c < j && CommitsAt(h, c, Key(n, s), candidates[s]);
      assert h.states[c + 1] == Apply(h.states[c], h.steps[c]);
      ExecutionForward(cfg, h, c + 1, j);
    }
  }

  /** Everything that is stale at state `a` runs up to state `b`, after its stale parents. */
  ghost predicate RunsAll(cfg: Config, h: Execution, a: nat, b: nat, starts: map<string, nat>, ends: map<string, nat>)
    requires a < |h.states|
  {
    forall n :: n in StaleNow(cfg, h.states[a]) ==> RunsWithin(cfg, h, a, b, starts, ends, n)
  }

  ghost predicate RunsWithin(cfg: Config, h: Execution, a: nat, b: nat, starts: map<string, nat>,
                             ends: map<string, nat>, n: string)
    requires a < |h.states|
  {
    && n in starts && n in ends && a <= starts[n] && ends[n] <= b && RanBetween(h, n, starts[n], ends[n])
    && forall p :: (p, n) in cfg.manifest.edges && p in StaleNow(cfg, h.states[a]) ==>
         p in ends && a <= ends[p] <= starts[n]
  }

  ghost function Since(a: nat, times: map<string, nat>): map<string, nat> {
    map n | n in times && a <= times[n] :: times[n] - a
  }

  /** The same, in the states of the stretch. */
  lemma WithinRunsAt(cfg: Config, h: Execution, a: nat, b: nat, starts: map<string, nat>, ends: map<string, nat>,
                     n: string)
    requires a <= b < |h.states| && RunsWithin(cfg, h, a, b, starts, ends, n)
    requires Raised(h.states[ends[n]], n, Candidates(cfg, h.states[starts[n]], n, false))
    ensures RunsAt(cfg, h.states[a..b + 1], Since(a, starts), Since(a, ends), n)
  {
    var states, from, to := h.states[a..b + 1], Since(a, starts), Since(a, ends);
    assert states[0] == h.states[a];
    assert from[n] == starts[n] - a && states[from[n]] == h.states[starts[n]];
    assert to[n] == ends[n] - a && states[to[n]] == h.states[ends[n]];
  }

  lemma StretchOutcome(cfg: Config, h: Execution, a: nat, b: nat, i: nat, j: nat)
    requires Runs(cfg, h) && a <= b <= |h.steps| && AddsNone(h, a, b) && RunsNodesOnly(cfg, h) && i <= j <= b - a
    ensures OutcomeAt(cfg, h.states[a..b + 1], i, j)
  {
    ExecutionOutcome(cfg, h, a + i, a + j);
  }

  lemma StretchRunsAt(cfg: Config, h: Execution, a: nat, b: nat, starts: map<string, nat>, ends: map<string, nat>,
                      n: string)
    requires Runs(cfg, h) && RunsNodesOnly(cfg, h) && a <= b <= |h.steps|
    requires RunsWithin(cfg, h, a, b, starts, ends, n)
    ensures RunsAt(cfg, h.states[a..b + 1], Since(a, starts), Since(a, ends), n)
  {
    RanIsRaised(cfg, h, n, starts[n], ends[n]);
    WithinRunsAt(cfg, h, a, b, starts, ends, n);
  }

  /**
   * Every stretch of an execution without new events, in which everything that is stale at first runs and commits, each
   * node after its stale parents, is a course; whatever else runs, commits and advances in between.
   */
  lemma ExecutionIsCourse(cfg: Config, h: Execution, a: nat, b: nat, starts: map<string, nat>, ends: map<string, nat>)
    requires Runs(cfg, h) && a <= b <= |h.steps| && AddsNone(h, a, b) && RunsAll(cfg, h, a, b, starts, ends)
    requires RunsNodesOnly(cfg, h)
    ensures Course(cfg, h.states[a..b + 1], Since(a, starts), Since(a, ends))
  {
    AlwaysInv(cfg, h, a);
    var states := h.states[a..b + 1];
    forall i, j | 0 <= i <= j < |states| ensures OutcomeAt(cfg, states, i, j) {
      StretchOutcome(cfg, h, a, b, i, j);
    }
    assert states[0] == h.states[a];
    forall n | n in StaleNow(cfg, h.states[a])
      ensures RunsAt(cfg, states, Since(a, starts), Since(a, ends), n)
    {
      StretchRunsAt(cfg, h, a, b, starts, ends, n);
    }
  }
}
