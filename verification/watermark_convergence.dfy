/** Running the stale list once: what it achieves, and on which manifests. */
module WatermarkConvergence {
  import opened Common
  import opened Graph
  import opened AncestorIndex
  import opened Watermarks
  import opened WatermarkSafety

  /** The manifest is acyclic and no tracked key is itself a node that runs. */
  ghost predicate Runnable(cfg: Config) {
    Acyclic(cfg.manifest.edges) && cfg.tracked !! cfg.manifest.NonSource()
  }

  /** Only non-source nodes of the manifest are executed; sources never are. */
  ghost predicate NodesOnly(cfg: Config, step: Step) {
    step.Start? ==> step.node in cfg.manifest.NonSource() && !step.isSource
  }

  /** Some path from `s` to `n` runs through non-source manifest nodes only: every hop on it executes. */
  ghost predicate Feeds(cfg: Config, s: string, n: string) {
    Reaches(cfg.manifest.edges, cfg.manifest.NonSource(), s, n)
  }

  /** A row of node `n` for source `s` can only exist where `s` feeds `n`. */
  ghost predicate Fed(cfg: Config, st: State) {
    && (forall k :: k in st.marks ==> k.node in cfg.manifest.NonSource() && Feeds(cfg, k.source, k.node))
    && (forall k :: k in st.staged ==> k.node in cfg.manifest.NonSource() && Feeds(cfg, k.source, k.node))
    && (forall x :: x in st.loaded ==> x.0.node in cfg.manifest.NonSource() && Feeds(cfg, x.0.source, x.0.node))
  }

  ghost predicate Inv(cfg: Config, st: State) {
    Recorded(st) && st.events.Values <= cfg.tracked && Fed(cfg, st)
  }

  lemma CandidateFed(cfg: Config, st: State, n: string, s: string)
    requires Fed(cfg, st) && n in cfg.manifest.NonSource() && s in Candidates(cfg, st, n, false)
    ensures Feeds(cfg, s, n)
  {
    var es, ns := cfg.manifest.edges, cfg.manifest.NonSource();
    var e := MemberOf(Contributions(cfg, st, n, s));
    if p :| p in Parents(es, n) && Key(p, s) in st.marks {
      ReachesSnoc(es, ns, s, p, n);
    } else {
      ReachesRefl(es, ns, s);
      ReachesSnoc(es, ns, s, s, n);
    }
  }

  lemma InvKept(cfg: Config, st: State, step: Step)
    requires Inv(cfg, st) && Enabled(cfg, st, step) && NodesOnly(cfg, step)
    ensures Inv(cfg, Apply(st, step))
  {
    RecordedKept(cfg, st, step);
    if step.Start? {
      forall s | s in step.candidates ensures Feeds(cfg, s, step.node) {
        CandidateFed(cfg, st, step.node, s);
      }
    }
  }

  /** The invariant holds throughout every execution that runs nodes only. */
  lemma {:induction false} AlwaysInv(cfg: Config, h: Execution, k: nat)
    requires Runs(cfg, h) && k <= |h.steps| && forall i :: 0 <= i < |h.steps| ==> NodesOnly(cfg, h.steps[i])
    ensures Inv(cfg, h.states[k])
  {
    if k > 0 {
      AlwaysInv(cfg, h, k - 1);
      InvKept(cfg, h.states[k - 1], h.steps[k - 1]);
      assert h.states[k - 1 + 1] == h.states[k];
    }
  }

  // ---------------------------------------------------------------------------------------------
  // Staleness

  /** The newest of the targeted events of a source. */
  ghost function TargetOf(st: State, s: string, targets: set<int>): Option<int> {
    if EventsOf(st.events, s) * targets == {} then None else Some(MaxOf(EventsOf(st.events, s) * targets))
  }

  /** No row, or a row behind the target; a source without a target makes no comparison. */
  ghost predicate Behind(st: State, n: string, s: string, targets: set<int>) {
    || Key(n, s) !in st.marks
    || (TargetOf(st, s, targets).Some? && st.marks[Key(n, s)] < TargetOf(st, s, targets).value)
  }

  /** The nodes that need execution for the targeted events of the keys. */
  ghost function StaleNodes(cfg: Config, st: State, keys: set<string>, targets: set<int>): set<string> {
    if keys == {} || targets == {} then {}
    else if !HasAncestors(cfg) then cfg.manifest.Downstream(keys)
    else
      set n | n in cfg.manifest.NonSource() &&
        exists s :: s in keys && cfg.manifest.Indexed(cfg.tracked, n, s) && Behind(st, n, s, targets)
  }

  /** The node has no row for the source, or some targeted event of the source lies beyond it. */
  ghost predicate MissesTarget(st: State, n: string, s: string, targets: set<int>) {
    || Key(n, s) !in st.marks
    || exists e :: e in targets && e in st.events && st.events[e] == s && st.marks[Key(n, s)] < e
  }

  /** With an index, a node is listed exactly when, for some key that it is indexed under, it has no row or has not
      reached some targeted event of the key. */
  lemma ListedIff(cfg: Config, st: State, keys: set<string>, targets: set<int>, n: string)
    requires HasAncestors(cfg) && targets != {}
    ensures n in StaleNodes(cfg, st, keys, targets) <==>
      n in cfg.manifest.NonSource() &&
      exists s :: s in keys && cfg.manifest.Indexed(cfg.tracked, n, s) && MissesTarget(st, n, s, targets)
  {
    forall s | s in keys
      ensures Behind(st, n, s, targets) <==> MissesTarget(st, n, s, targets)
    {
      forall e ensures e in EventsOf(st.events, s) * targets <==> e in targets && e in st.events && st.events[e] == s {}
    }
  }

  /** An event that is not targeted changes no list. */
  lemma UntargetedEventIsIgnored(cfg: Config, st: State, keys: set<string>, targets: set<int>, id: int, source: string)
    requires id !in targets && id !in st.events
    ensures StaleNodes(cfg, Apply(st, NewEvent(id, source)), keys, targets) == StaleNodes(cfg, st, keys, targets)
  {
    forall s ensures EventsOf(st.events[id := source], s) * targets == EventsOf(st.events, s) * targets {}
  }

  /** The stale list lies within the search it replaces, and is the index's list when no watermark exists. */
  lemma StaleWithinSearch(cfg: Config, st: State, keys: set<string>, targets: set<int>)
    ensures StaleNodes(cfg, st, keys, targets) <= cfg.manifest.Downstream(keys)
    ensures st.marks == map[] && targets != {} && HasAncestors(cfg) ==>
      StaleNodes(cfg, st, keys, targets) == cfg.manifest.IndexedUnder(cfg.tracked, keys)
  {
    IndexWithinSearch(cfg.manifest, cfg.tracked, keys);
    var m := cfg.manifest;
    if keys != {} && targets != {} && HasAncestors(cfg) {
      forall n | n in StaleNodes(cfg, st, keys, targets) ensures n in m.IndexedUnder(cfg.tracked, keys) {
        var s :| s in keys && m.Indexed(cfg.tracked, n, s) && Behind(st, n, s, targets);
      }
      if st.marks == map[] {
        forall n | n in m.IndexedUnder(cfg.tracked, keys) ensures n in StaleNodes(cfg, st, keys, targets) {
          var s :| s in keys && m.Indexed(cfg.tracked, n, s);
          assert Behind(st, n, s, targets);
        }
      }
    }
  }

  /** The sources with an event after their pointer, and the newest such event of each. */
  ghost function UnsatisfiedSources(st: State): set<string> {
    set s | s in st.events.Values && (s !in st.satisfied || st.satisfied[s] < Newest(st, s))
  }

  /** The id of the newest event of a source that has one. */
  ghost function Newest(st: State, s: string): int {
    if EventsOf(st.events, s) == {} then 0 else MaxOf(EventsOf(st.events, s))
  }

  ghost function UnsatisfiedEvents(st: State): set<int> {
    set s | s in UnsatisfiedSources(st) :: Newest(st, s)
  }

  lemma NewestIsEvent(st: State, s: string)
    requires s in st.events.Values
    ensures Newest(st, s) in EventsOf(st.events, s) && Latest(st.events, s) == Some(Newest(st, s))
  {
    var e := KeyOf(st.events, s);
    assert e in EventsOf(st.events, s);
  }

  lemma TargetIsNewest(st: State, s: string)
    requires s in UnsatisfiedSources(st)
    ensures TargetOf(st, s, UnsatisfiedEvents(st)) == Some(Newest(st, s))
  {
    NewestIsEvent(st, s);
    var both := EventsOf(st.events, s) * UnsatisfiedEvents(st);
    assert Newest(st, s) in both;
    forall e | e in both ensures e == Newest(st, s) {
      var t :| t in UnsatisfiedSources(st) && e == Newest(st, t);
      NewestIsEvent(st, t);
    }
  }

  // ---------------------------------------------------------------------------------------------
  // Running a node, and running the stale list

  /** A successful execution: start, commit of the staged rows in some order, advance, clean-up. */
  datatype NodeRun = NodeRun(run: nat, node: string, order: seq<string>)

  /** Commits the staged row of a source, if there is one. */
  function CommitStaged(staged: map<StageKey, int>, st: State, run: nat, n: string, s: string): State {
    if StageKey(run, n, s) !in staged then st else CommitOne(st, run, n, s, staged[StageKey(run, n, s)])
  }

  function CommitAll(st: State, run: nat, n: string, order: seq<string>): State {
    if order == [] then st
    else CommitStaged(st.staged, CommitAll(st, run, n, order[..|order| - 1]), run, n, order[|order| - 1])
  }

  /** The sources whose watermark of `n` is not what it was. */
  function Moved(before: map<Key, int>, after: map<Key, int>, n: string): set<string> {
    set k | k in after && k.node == n && (k !in before || before[k] != after[k]) :: k.source
  }

  /** A successful finish: every staged row is committed, the pointers of the sources that moved advance. */
  ghost function FinishSuccess(cfg: Config, st: State, run: nat, n: string, order: seq<string>): State {
    var committed := CommitAll(st, run, n, order);
    Discard(AdvanceAll(cfg, committed, Moved(st.marks, committed.marks, n)), run, n)
  }

  /** An undisturbed advance call over some sources. */
  ghost function AdvanceAll(cfg: Config, st: State, keys: set<string>): State {
    st.(satisfied := Advanced(cfg, st, Beyond(st.events, st.satisfied, keys)))
  }

  ghost function Started(cfg: Config, st: State, run: nat, n: string): State {
    Apply(st, Start(run, n, false, Candidates(cfg, st, n, false)))
  }

  ghost function Execute(cfg: Config, st: State, r: NodeRun): State {
    FinishSuccess(cfg, Started(cfg, st, r.run, r.node), r.run, r.node, r.order)
  }

  /** A finish goes over exactly the staged rows of its run and node. */
  ghost predicate ListsStaged(cfg: Config, st: State, r: NodeRun) {
    forall s :: s in r.order <==> StageKey(r.run, r.node, s) in Started(cfg, st, r.run, r.node).staged
  }

  /** `states[i]` is the state before run `i`. */
  ghost predicate Executes(cfg: Config, states: seq<State>, runs: seq<NodeRun>) {
    |states| == |runs| + 1 && forall i :: 0 <= i < |runs| ==> ExecutesAt(cfg, states, runs, i)
  }

  ghost predicate ExecutesAt(cfg: Config, states: seq<State>, runs: seq<NodeRun>, i: nat)
    requires |states| == |runs| + 1 && i < |runs|
  {
    ListsStaged(cfg, states[i], runs[i]) && states[i + 1] == Execute(cfg, states[i], runs[i])
  }

  lemma {:induction false} CommitAllForward(st: State, run: nat, n: string, order: seq<string>)
    ensures var st' := CommitAll(st, run, n, order);
      Forward(st, st') && st' == st.(marks := st'.marks, log := st'.log)
  {
    if order != [] { CommitAllForward(st, run, n, order[..|order| - 1]); }
  }

  lemma {:induction false} CommitAllKeeps(cfg: Config, st: State, run: nat, n: string, order: seq<string>)
    requires Inv(cfg, st)
    ensures Inv(cfg, CommitAll(st, run, n, order))
  {
    if order != [] {
      var front, last := order[..|order| - 1], order[|order| - 1];
      CommitAllKeeps(cfg, st, run, n, front);
      CommitAllForward(st, run, n, front);
    }
  }

  lemma {:induction false} CommitAllRaises(st: State, run: nat, n: string, order: seq<string>, s: string)
    requires s in order && StageKey(run, n, s) in st.staged
    ensures var st' := CommitAll(st, run, n, order);
      Key(n, s) in st'.marks && st.staged[StageKey(run, n, s)] <= st'.marks[Key(n, s)]
  {
    var front, last := order[..|order| - 1], order[|order| - 1];
    CommitAllForward(st, run, n, front);
    if s != last {
      assert order == front + [last];
      CommitAllRaises(st, run, n, front, s);
    }
  }

  /** The watermarks of `n` are at or above the candidates. */
  ghost predicate Raised(st: State, n: string, candidates: map<string, int>) {
    forall s :: s in candidates ==> Key(n, s) in st.marks && candidates[s] <= st.marks[Key(n, s)]
  }

  /** Pointers that differ name events that every node has reached. */
  ghost predicate MovedToReached(cfg: Config, before: State, after: State) {
    forall s :: s in after.satisfied && !(s in before.satisfied && after.satisfied[s] == before.satisfied[s]) ==>
      after.satisfied[s] in ReachedEvents(cfg, after, s)
  }

  lemma AdvanceMoves(cfg: Config, st: State, keys: set<string>)
    ensures Forward(st, AdvanceAll(cfg, st, keys)) && MovedToReached(cfg, st, AdvanceAll(cfg, st, keys))
  {
    var rows, st' := Beyond(st.events, st.satisfied, keys), AdvanceAll(cfg, st, keys);
    forall s | s in st.satisfied ensures st.satisfied[s] <= st'.satisfied[s] {
      if ReachedEvents(cfg, st, s) * rows != {} {
        var e := MaxOf(ReachedEvents(cfg, st, s) * rows);
        assert st.events[e] == s;
      }
    }
    forall s ensures ReachedEvents(cfg, st', s) == ReachedEvents(cfg, st, s) {}
  }

  lemma AdvanceKeepsInv(cfg: Config, st: State, keys: set<string>)
    requires Inv(cfg, st)
    ensures Inv(cfg, AdvanceAll(cfg, st, keys))
  {
    AdvanceMoves(cfg, st, keys);
    var st' := AdvanceAll(cfg, st, keys);
    forall s | s in st'.satisfied ensures st'.satisfied[s] in EventsOf(st'.events, s) {
      if !(s in st.satisfied && st'.satisfied[s] == st.satisfied[s]) {
        assert st'.satisfied[s] in ReachedEvents(cfg, st', s);
      }
    }
  }

  /** Discarding staged rows afterwards changes no pointer and nothing that is reached. */
  lemma MovedThroughDiscard(cfg: Config, st: State, committed: State, after: State, run: nat, n: string)
    requires committed.satisfied == st.satisfied && MovedToReached(cfg, committed, after)
    ensures MovedToReached(cfg, st, Discard(after, run, n))
  {
    forall s ensures ReachedEvents(cfg, Discard(after, run, n), s) == ReachedEvents(cfg, after, s) {}
  }

  /** A finish moves nothing back, and pointers move only to events that every node has then reached. */
  lemma FinishEffect(cfg: Config, st: State, run: nat, n: string, order: seq<string>, st': State)
    requires Inv(cfg, st) && st' == FinishSuccess(cfg, st, run, n, order)
    ensures Inv(cfg, st') && Forward(st, st') && st'.events == st.events && MovedToReached(cfg, st, st')
    ensures st'.marks == CommitAll(st, run, n, order).marks
  {
    var committed := CommitAll(st, run, n, order);
    var keys := Moved(st.marks, committed.marks, n);
    CommitAllKeeps(cfg, st, run, n, order);
    CommitAllForward(st, run, n, order);
    AdvanceMoves(cfg, committed, keys);
    AdvanceKeepsInv(cfg, committed, keys);
    var after := AdvanceAll(cfg, committed, keys);
    InvKept(cfg, after, Finished(run, n));
    MovedThroughDiscard(cfg, st, committed, after, run, n);
    ForwardJoins(st, committed, after);
  }

  lemma ForwardJoins(a: State, b: State, c: State)
    requires Forward(a, b) && Forward(b, c)
    ensures Forward(a, c)
  {
  }

  /** From one state to a later one without new events: nothing moves back, and pointers move only to what every node
      has reached. */
  ghost predicate Outcome(cfg: Config, st: State, st': State) {
    Inv(cfg, st') && Forward(st, st') && st'.events == st.events && MovedToReached(cfg, st, st')
  }

  /** An execution of `n` besides brings `n` up to each candidate. */
  ghost predicate Progress(cfg: Config, st: State, n: string, st': State) {
    Outcome(cfg, st, st') && Raised(st', n, Candidates(cfg, st, n, false))
  }

  /** A start changes staged rows only, and stages each candidate. */
  lemma StartEffect(cfg: Config, st: State, run: nat, n: string)
    requires Inv(cfg, st) && n in cfg.manifest.NonSource()
    ensures var started := Started(cfg, st, run, n);
      && Inv(cfg, started) && started == st.(staged := started.staged)
      && forall s :: s in Candidates(cfg, st, n, false) ==>
           StageKey(run, n, s) in started.staged &&
           started.staged[StageKey(run, n, s)] == Candidates(cfg, st, n, false)[s]
  {
    InvKept(cfg, st, Start(run, n, false, Candidates(cfg, st, n, false)));
  }

  /** A finish that goes over every staged row of the node brings the node up to each. */
  lemma FinishRaises(st: State, run: nat, n: string, order: seq<string>, candidates: map<string, int>)
    requires forall s :: s in candidates ==>
      s in order && StageKey(run, n, s) in st.staged && st.staged[StageKey(run, n, s)] == candidates[s]
    ensures forall s :: s in candidates ==>
      Key(n, s) in CommitAll(st, run, n, order).marks && candidates[s] <= CommitAll(st, run, n, order).marks[Key(n, s)]
  {
    forall s | s in candidates
      ensures Key(n, s) in CommitAll(st, run, n, order).marks &&
        candidates[s] <= CommitAll(st, run, n, order).marks[Key(n, s)]
    {
      CommitAllRaises(st, run, n, order, s);
    }
  }

  lemma ExecuteProgress(cfg: Config, st: State, r: NodeRun, st': State)
    requires Inv(cfg, st) && r.node in cfg.manifest.NonSource()
    requires ListsStaged(cfg, st, r) && st' == Execute(cfg, st, r)
    ensures Progress(cfg, st, r.node, st')
  {
    var started := Started(cfg, st, r.run, r.node);
    StartEffect(cfg, st, r.run, r.node);
    FinishEffect(cfg, started, r.run, r.node, r.order, st');
    FinishRaises(started, r.run, r.node, r.order, Candidates(cfg, st, r.node, false));
    ForwardFromStaged(cfg, st, started, st');
  }

  lemma ForwardFromStaged(cfg: Config, st: State, started: State, st': State)
    requires started == st.(staged := started.staged) && Forward(started, st') && MovedToReached(cfg, started, st')
    ensures Forward(st, st') && MovedToReached(cfg, st, st')
  {
  }

  /** `n` has caught up with the newest event of every unsatisfied source above it. */
  ghost predicate CaughtUp(cfg: Config, st: State, keys: set<string>, n: string) {
    forall s :: s in keys && cfg.manifest.Indexed(cfg.tracked, n, s) ==>
      Key(n, s) in st.marks && Newest(st, s) <= st.marks[Key(n, s)]
  }

  /** Staleness against the events that were unsatisfied at `st0`, at any later state `st` without new events. */
  lemma NotStaleIsCaughtUp(cfg: Config, st0: State, st: State, n: string)
    requires HasAncestors(cfg) && n in cfg.manifest.NonSource() && st.events == st0.events
    ensures n !in StaleNodes(cfg, st, UnsatisfiedSources(st0), UnsatisfiedEvents(st0)) <==>
      CaughtUp(cfg, st, UnsatisfiedSources(st0), n)
  {
    var keys := UnsatisfiedSources(st0);
    forall s | s in keys
      ensures Behind(st, n, s, UnsatisfiedEvents(st0)) <==>
        !(Key(n, s) in st.marks && Newest(st, s) <= st.marks[Key(n, s)])
      ensures UnsatisfiedEvents(st0) != {}
    {
      TargetIsNewest(st0, s);
      assert TargetOf(st, s, UnsatisfiedEvents(st0)) == TargetOf(st0, s, UnsatisfiedEvents(st0));
      assert Newest(st, s) == Newest(st0, s) && Newest(st0, s) in UnsatisfiedEvents(st0);
    }
  }

  lemma CaughtUpForward(cfg: Config, a: State, b: State, keys: set<string>, n: string)
    requires CaughtUp(cfg, a, keys, n) && Forward(a, b) && a.events == b.events
    ensures CaughtUp(cfg, b, keys, n)
  {
    forall s | s in keys && cfg.manifest.Indexed(cfg.tracked, n, s)
      ensures Key(n, s) in b.marks && Newest(b, s) <= b.marks[Key(n, s)]
    {
      assert Key(n, s) in a.marks;
    }
  }

  /** Every non-source node the index lists under a key is fed by the key. */
  ghost predicate AllFed(cfg: Config, keys: set<string>) {
    forall s, n :: s in keys && n in cfg.manifest.NonSource() && cfg.manifest.Indexed(cfg.tracked, n, s) ==>
      Feeds(cfg, s, n)
  }

  /** Where one source feeds a node whose parents have caught up, the MIN exists and is the newest event. */
  lemma ParentsCaughtUp(cfg: Config, st: State, keys: set<string>, n: string, s: string)
    requires Runnable(cfg) && Inv(cfg, st) && keys <= st.events.Values
    requires n in cfg.manifest.NonSource() && s in keys && cfg.manifest.Indexed(cfg.tracked, n, s) && Feeds(cfg, s, n)
    requires forall p :: (p, n) in cfg.manifest.edges && p in cfg.manifest.NonSource() ==> CaughtUp(cfg, st, keys, p)
    ensures s in Candidates(cfg, st, n, false) && Newest(st, s) <= Candidates(cfg, st, n, false)[s]
  {
    var es, ns := cfg.manifest.edges, cfg.manifest.NonSource();
    NewestIsEvent(st, s);
    var p := ReachesInvert(es, ns, s, n);
    if p != s {
      FedIsIndexed(cfg, s, p);
      assert st.marks[Key(p, s)] in Contributions(cfg, st, n, s);
    } else {
      assert Newest(st, s) in Contributions(cfg, st, n, s);
    }
    forall e | e in Contributions(cfg, st, n, s) ensures Newest(st, s) <= e {
      if q :| q in Parents(es, n) && Key(q, s) in st.marks && e == st.marks[Key(q, s)] {
        FedIsIndexed(cfg, s, q);
        assert CaughtUp(cfg, st, keys, q);
      }
    }
  }

  lemma FedIsIndexed(cfg: Config, s: string, n: string)
    requires Runnable(cfg) && s in cfg.tracked && Feeds(cfg, s, n) && s != n
    ensures n in cfg.manifest.NonSource() && cfg.manifest.Indexed(cfg.tracked, n, s)
  {
    var p := ReachesInvert(cfg.manifest.edges, cfg.manifest.NonSource(), s, n);
    ReachesWiden(cfg.manifest.edges, cfg.manifest.NonSource(), s, n);
    ReachesAbove(cfg.manifest, s, n);
  }

  lemma StaleAreNonSource(cfg: Config, st: State, n: string)
    requires n in StaleNodes(cfg, st, UnsatisfiedSources(st), UnsatisfiedEvents(st))
    ensures n in cfg.manifest.NonSource()
  {
  }

  /** A node that runs after all its parents have caught up has caught up itself. */
  lemma RunCatchesUp(cfg: Config, before: State, after: State, keys: set<string>, n: string)
    requires Runnable(cfg) && Inv(cfg, before) && keys <= before.events.Values && AllFed(cfg, keys)
    requires after.events == before.events && n in cfg.manifest.NonSource()
    requires forall p :: (p, n) in cfg.manifest.edges && p in cfg.manifest.NonSource() ==>
      CaughtUp(cfg, before, keys, p)
    requires Raised(after, n, Candidates(cfg, before, n, false))
    ensures CaughtUp(cfg, after, keys, n)
  {
    forall s | s in keys && cfg.manifest.Indexed(cfg.tracked, n, s)
      ensures Key(n, s) in after.marks && Newest(after, s) <= after.marks[Key(n, s)]
    {
      ParentsCaughtUp(cfg, before, keys, n, s);
    }
  }

  /** The index lists `n` under `s`, but no path of nodes that execute leads from `s` to it. */
  ghost predicate Unfed(cfg: Config, s: string, n: string) {
    n in cfg.manifest.NonSource() && cfg.manifest.Indexed(cfg.tracked, n, s) && !Feeds(cfg, s, n)
  }

  /** A node that its source does not feed never has a row, so no event of the source is ever reached by all. */
  lemma UnfedNotReached(cfg: Config, st: State, s: string, n: string)
    requires Inv(cfg, st) && Unfed(cfg, s, n)
    ensures Key(n, s) !in st.marks && ReachedEvents(cfg, st, s) == {}
  {
    forall e ensures !AllReached(cfg, st, s, e) {}
  }

  /** A run can settle what is listed under the keys: all of it is fed or, without an index, nothing is below them. */
  ghost predicate Settles(cfg: Config, keys: set<string>) {
    if HasAncestors(cfg) then AllFed(cfg, keys) else cfg.manifest.Downstream(keys) == {}
  }

  lemma UnfedExists(cfg: Config, keys: set<string>) returns (s: string, n: string)
    requires !AllFed(cfg, keys)
    ensures s in keys && Unfed(cfg, s, n)
  {
    s, n :| s in keys && n in cfg.manifest.NonSource() && cfg.manifest.Indexed(cfg.tracked, n, s) && !Feeds(cfg, s, n);
  }

  lemma NoTargetsNoKeys(st: State)
    ensures UnsatisfiedSources(st) == {} <==> UnsatisfiedEvents(st) == {}
  {
    if UnsatisfiedSources(st) != {} {
      var s := MemberOf(UnsatisfiedSources(st));
      assert Newest(st, s) in UnsatisfiedEvents(st);
    }
  }

  /** Fewer unsatisfied sources make for fewer stale nodes. */
  lemma StaleShrinks(cfg: Config, st0: State, st: State)
    requires st.events == st0.events && UnsatisfiedSources(st) <= UnsatisfiedSources(st0)
    ensures StaleNodes(cfg, st, UnsatisfiedSources(st), UnsatisfiedEvents(st)) <=
      StaleNodes(cfg, st, UnsatisfiedSources(st0), UnsatisfiedEvents(st0))
  {
    NoTargetsNoKeys(st);
    NoTargetsNoKeys(st0);
    if HasAncestors(cfg) {
      forall n | n in StaleNodes(cfg, st, UnsatisfiedSources(st), UnsatisfiedEvents(st))
        ensures n in StaleNodes(cfg, st, UnsatisfiedSources(st0), UnsatisfiedEvents(st0))
      {
        NotStaleIsCaughtUp(cfg, st, st, n);
        NotStaleIsCaughtUp(cfg, st0, st, n);
      }
    }
  }

  // ---------------------------------------------------------------------------------------------
  // A node that its source does not feed

  /** Over every execution that runs nodes only: once `s` has an event, a node it does not feed is on the list. */
  lemma UnfedIsStaleForEver(cfg: Config, h: Execution, k: nat, s: string, n: string)
    requires Runs(cfg, h) && k <= |h.steps| && forall i :: 0 <= i < |h.steps| ==> NodesOnly(cfg, h.steps[i])
    requires Unfed(cfg, s, n) && s in h.states[k].events.Values
    ensures s in UnsatisfiedSources(h.states[k])
    ensures n in StaleNodes(cfg, h.states[k], UnsatisfiedSources(h.states[k]), UnsatisfiedEvents(h.states[k]))
  {
    var st := h.states[k];
    AlwaysInv(cfg, h, k);
    PointersAlwaysReached(cfg, h, k);
    UnfedNotReached(cfg, st, s, n);
    assert s in st.satisfied ==> AllReached(cfg, st, s, st.satisfied[s]);
    NotStaleIsCaughtUp(cfg, st, st, n);
  }

  /** `s -> x -> n`, where `x` is no manifest node of known type: it never executes. */
  function HopConfig(s: string, x: string, n: string): Config {
    Config(Manifest([(s, x), (x, n)], map[s := Some("source"), n := Some("model")]), {s})
  }

  /** For any three identifiers, a manifest the code accepts with a node that its source does not feed. */
  lemma HopIsUnfed(s: string, x: string, n: string)
    requires s != x && x != n && s != n
    ensures Runnable(HopConfig(s, x, n)) && Unfed(HopConfig(s, x, n), s, n)
    ensures !AllFed(HopConfig(s, x, n), {s})
  {
    var cfg := HopConfig(s, x, n);
    var es := cfg.manifest.edges;
    assert es[0] == (s, x) && es[1] == (x, n);
    assert cfg.manifest.NonSource() == {n};
    HopAcyclic(s, x, n);
    EdgeEnds(es, x, n);
    ReachesRefl(es, Nodes(es), x);
    ReachesSnoc(es, Nodes(es), x, x, n);
    assert cfg.manifest.Above(s, n);
    if Feeds(cfg, s, n) {
      ClosedHoldsReachable(es, {n}, {s}, s, n);
    }
  }

  /** There, in every execution and from the first event on, the node is on the stale list. */
  lemma HopIsStaleForEver(s: string, x: string, n: string, h: Execution, k: nat)
    requires s != x && x != n && s != n
    requires Runs(HopConfig(s, x, n), h) && k <= |h.steps| && s in h.states[k].events.Values
    requires forall i :: 0 <= i < |h.steps| ==> NodesOnly(HopConfig(s, x, n), h.steps[i])
    ensures n in
      StaleNodes(HopConfig(s, x, n), h.states[k], UnsatisfiedSources(h.states[k]), UnsatisfiedEvents(h.states[k]))
  {
    HopIsUnfed(s, x, n);
    UnfedIsStaleForEver(HopConfig(s, x, n), h, k, s, n);
  }

  /** `s -> n`, where the manifest has `n` without a resource type. */
  function UntypedConfig(s: string, n: string): Config {
    Config(Manifest([(s, n)], map[s := Some("source"), n := None]), {s})
  }

  /** For any two identifiers: the index lists the untyped node, but no stale list ever does, in any state; and every
      event of the source passes for reached. */
  lemma UntypedIsNeverStale(s: string, n: string, st: State, keys: set<string>, targets: set<int>, e: int)
    requires s != n
    ensures UntypedConfig(s, n).manifest.Indexed({s}, n, s) && StaleNodes(UntypedConfig(s, n), st, keys, targets) == {}
    ensures HasAncestors(UntypedConfig(s, n)) && AllReached(UntypedConfig(s, n), st, s, e)
  {
    var cfg := UntypedConfig(s, n);
    var es := cfg.manifest.edges;
    assert es[0] == (s, n);
    ReachesRefl(es, Nodes(es), n);
    EdgeEnds(es, s, n);
    assert cfg.manifest.Above(s, n) && cfg.manifest.Indexed(cfg.tracked, n, s);
    assert cfg.manifest.NonSource() == {} && HasAncestors(cfg);
  }

  lemma HopAcyclic(s: string, x: string, n: string)
    requires s != x && x != n && s != n
    ensures Acyclic(HopConfig(s, x, n).manifest.edges)
  {
    var es := HopConfig(s, x, n).manifest.edges;
    assert es[0] == (s, x) && es[1] == (x, n);
    forall a, b | (a, b) in es ensures !Reaches(es, Nodes(es), b, a) {
      var below := if b == x then {x, n} else {n};
      if Reaches(es, Nodes(es), b, a) { ClosedHoldsReachable(es, Nodes(es), below, b, a); }
    }
  }
}
