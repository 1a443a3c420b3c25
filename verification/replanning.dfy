/** Replanning of a pending plan against the live state, before it is admitted. */
module Replanning {
  import opened Common
  import opened Graph
  import ControlPlane
  import Fingerprints
  import opened Planner
  import PlannerConvergence
  import opened Watermarks
  import opened WatermarkConvergence
  import opened WatermarkCourse
  import WatermarkTables

  datatype Snapshot = Snapshot(nodes: seq<ManifestNode>, edges: Edges)

  /** What a code-change replan reads: the newest manifest of each commit, the baseline's nodes, the live state. */
  datatype Live = Live(manifests: map<string, Snapshot>, baseline: seq<ManifestNode>, nodes: LiveState)

  ghost predicate AllAcyclic(live: Live) {
    forall c :: c in live.manifests ==> Acyclic(live.manifests[c].edges)
  }

  function Elements<T>(s: seq<T>): set<T> {
    set x | x in s
  }

  /** The event identifiers of a plan: those it lists, or else the one it was created for. */
  function EventIds(listed: seq<int>, single: Option<int>): seq<int> {
    if listed == [] && single.Some? then [single.value] else listed
  }

  /** A listed event that exists lies beyond its source's pointer. */
  ghost predicate SomeUnsatisfied(events: map<int, string>, satisfied: map<string, int>, ids: seq<int>) {
    exists e :: e in ids && e in events && (events[e] !in satisfied || e > satisfied[events[e]])
  }

  /** A code-change plan is kept without a target manifest; else its new selection is exactly what is stale, and
      is empty exactly when every modified node and everything below one is current. */
  ghost predicate IsCodeReplan(live: Live, targetCommit: Option<string>, replan: ControlPlane.Replan)
    requires AllAcyclic(live)
  {
    && (replan == ControlPlane.Keep <==> targetCommit.None? || targetCommit.value !in live.manifests)
    && (replan.Select? ==> IsStaleSelection(live.manifests[targetCommit.value], live, replan.resources))
  }

  ghost predicate IsStaleSelection(target: Snapshot, live: Live, resources: seq<string>) {
    var p := ProblemOf(live.baseline, target.nodes, target.edges);
    && p.Valid() && StrictlySorted(resources)
    && (forall n :: n in resources <==> n in p.Selection(live.nodes))
    && (resources == [] <==> forall n :: n in p.Candidates() ==> PlannerConvergence.Current(p, live.nodes, n))
  }

  /** A source plan is kept without events, emptied when its events are satisfied, and else selects the nodes under
      its keys that are behind them; without keys the stored selection stands. */
  ghost predicate IsSourceReplan(cfg: Config, st: State, ids: seq<int>, keys: seq<string>, stored: seq<string>,
                                 replan: ControlPlane.Replan) {
    && (replan == ControlPlane.Keep <==> ids == [])
    && (replan.Select? ==>
          if !SomeUnsatisfied(st.events, st.satisfied, ids) then replan.resources == []
          else if keys == [] then replan.resources == stored
          else
            && StrictlySorted(replan.resources)
            && forall n :: n in replan.resources <==> n in StaleNodes(cfg, st, Elements(keys), Elements(ids)))
  }

  class PlanRow {
    const env: nat
    const reason: string
    const hasBaseline: bool
    const targetCommit: Option<string>
    const sourceEventId: Option<int>
    const listedEventIds: seq<int>
    const sourceKeys: seq<string>
    var status: ControlPlane.PlanStatus
    var selectionSpec: Option<string>
    var selected: seq<string>
    var admittedInvocation: Option<nat>
    var blockedBy: Option<nat>
    var supersededBy: Option<nat>
    var failureCount: nat
    var nextAttemptAt: Option<int>
    var completedAt: Option<int>

    constructor (env: nat, reason: string, hasBaseline: bool, targetCommit: Option<string>, sourceEventId: Option<int>,
                 listedEventIds: seq<int>, sourceKeys: seq<string>, selectionSpec: Option<string>,
                 selected: seq<string>)
      ensures Plan() == ControlPlane.NewPlan(env, selected) && this.selectionSpec == selectionSpec
    {
      this.env, this.reason, this.hasBaseline, this.targetCommit := env, reason, hasBaseline, targetCommit;
      this.sourceEventId, this.listedEventIds, this.sourceKeys := sourceEventId, listedEventIds, sourceKeys;
      this.selectionSpec, this.selected, status := selectionSpec, selected, ControlPlane.Planned;
      admittedInvocation, blockedBy, supersededBy := None, None, None;
      failureCount, nextAttemptAt, completedAt := 0, None, None;
    }

    /** The row as the admission protocol sees it. */
    function Plan(): ControlPlane.Plan
      reads this
    {
      ControlPlane.Plan(env, status, selected, admittedInvocation, blockedBy, supersededBy, failureCount, nextAttemptAt,
        completedAt)
    }

    /** Reads the row again after an update of the stored plan. */
    method Refresh(plan: ControlPlane.Plan)
      requires plan.env == env
      modifies this
      ensures Plan() == plan && selectionSpec == old(selectionSpec)
    {
      status, selected, admittedInvocation, blockedBy := plan.status, plan.selected, plan.admittedInvocation,
        plan.blockedBy;
      supersededBy, failureCount := plan.supersededBy, plan.failureCount;
      nextAttemptAt, completedAt := plan.nextAttemptAt, plan.completedAt;
    }

    method UpdateSelection(spec: Option<string>, resources: seq<string>)
      modifies this`selectionSpec, this`selected, this`nextAttemptAt
      ensures Plan() == old(Plan()).(selected := resources, nextAttemptAt := None) && selectionSpec == spec
    {
      selectionSpec, selected, nextAttemptAt := spec, resources, None;
    }

    method CompleteNoop(now: int)
      modifies this
      ensures Plan() == ControlPlane.Replanned(old(Plan()), ControlPlane.Select([]), now)
      ensures Plan() == old(Plan()).(status := ControlPlane.PlanCompleted, selected := [], blockedBy := None,
        failureCount := 0, nextAttemptAt := None, completedAt := Some(now))
      ensures selectionSpec == old(selectionSpec)
    {
      status, selected, blockedBy := ControlPlane.PlanCompleted, [], None;
      failureCount, nextAttemptAt, completedAt := 0, None, Some(now);
    }

    /** Plans again from the live state: completes the plan if everything is current, else selects what is stale. */
    method ReplanCodeChange(live: Live, now: int) returns (replan: ControlPlane.Replan)
      requires AllAcyclic(live)
      modifies this
      ensures Plan() == ControlPlane.Replanned(old(Plan()), replan, now)
      ensures IsCodeReplan(live, targetCommit, replan)
    {
      if targetCommit.None? || targetCommit.value !in live.manifests {
        return ControlPlane.Keep;
      }
      var target := live.manifests[targetCommit.value];
      var resources := PlanCodeChange(live.baseline, target.nodes, target.edges, live.nodes);
      ghost var p := ProblemOf(live.baseline, target.nodes, target.edges);
      PlannerConvergence.EmptyPlanIffCurrent(p, live.nodes);
      EmptySelection(resources, p.Selection(live.nodes));
      replan := ControlPlane.Select(resources);
      if resources == [] {
        assert replan == ControlPlane.Select([]);
        CompleteNoop(now);
      } else {
        UpdateSelection(Some("state_modified_live_plus"), resources);
      }
    }

    /** The plan's event identifiers, each once, ascending. */
    method SourceEventIds() returns (ids: seq<int>)
      ensures Fingerprints.Ascending(ids) && Fingerprints.SameElements(ids, EventIds(listedEventIds, sourceEventId))
      ensures forall x :: x in ids <==> x in listedEventIds || (listedEventIds == [] && sourceEventId == Some(x))
    {
      var found := listedEventIds;
      if found == [] && sourceEventId.Some? {
        found := found + [sourceEventId.value];
      }
      var sorted := Fingerprints.SortIds(found);
      ids := Fingerprints.DropRepeats(sorted);
    }

    /** Keeps a plan without events; completes it if its events are satisfied or nothing under its keys is behind
        them; else selects what is behind. Without keys the stored selection stands. */
    method ReplanSourceState(tables: WatermarkTables.Tables, now: int) returns (replan: ControlPlane.Replan)
      requires tables.Valid()
      modifies this
      ensures Plan() == ControlPlane.Replanned(old(Plan()), replan, now)
      ensures IsSourceReplan(tables.cfg, tables.State(), EventIds(listedEventIds, sourceEventId), sourceKeys,
        old(selected), replan)
    {
      var ids := SourceEventIds();
      SameEmptiness(ids, EventIds(listedEventIds, sourceEventId));
      if ids == [] {
        return ControlPlane.Keep;
      }
      SameElementsSet(ids, EventIds(listedEventIds, sourceEventId));
      var satisfied := AreEventsSatisfied(tables.events, tables.satisfied, ids);
      if satisfied {
        CompleteNoop(now);
        return ControlPlane.Select([]);
      }
      var resources := selected;
      if sourceKeys != [] {
        resources := tables.ListStaleDownstreamNodes(Elements(sourceKeys), Elements(ids));
      }
      replan := ControlPlane.Select(resources);
      if resources == [] {
        assert replan == ControlPlane.Select([]);
        CompleteNoop(now);
      } else if resources != selected {
        UpdateSelection(Some("source_downstream_stale"), resources);
      } else {
        UpdateSelection(selectionSpec, selected);
      }
    }

    /** What the stored reason and the live state dictate for a plan with this stored selection. */
    ghost predicate IsReplan(live: Live, tables: WatermarkTables.Tables, stored: seq<string>,
                             replan: ControlPlane.Replan)
      requires AllAcyclic(live)
      reads this, tables
    {
      match if hasBaseline then Fingerprints.ParseReason(reason) else None
      case Some(CodeChange) => IsCodeReplan(live, targetCommit, replan)
      case Some(SourceStateChange) =>
        IsSourceReplan(tables.cfg, tables.State(), EventIds(listedEventIds, sourceEventId), sourceKeys, stored, replan)
      case None => replan == ControlPlane.Keep
    }

    /** Dispatches on the stored reason; a plan without a baseline, or of an unknown reason, is left alone. */
    method ReplanPending(live: Live, tables: WatermarkTables.Tables, now: int) returns (replan: ControlPlane.Replan)
      requires AllAcyclic(live) && tables.Valid()
      modifies this
      ensures Plan() == ControlPlane.Replanned(old(Plan()), replan, now)
      ensures IsReplan(live, tables, old(selected), replan)
    {
      if !hasBaseline {
        return ControlPlane.Keep;
      }
      match Fingerprints.ParseReason(reason) {
        case Some(CodeChange) => replan := ReplanCodeChange(live, now);
        case Some(SourceStateChange) => replan := ReplanSourceState(tables, now);
        case None => replan := ControlPlane.Keep;
      }
    }
  }

  /** No listed event that exists lies beyond its source's pointer. */
  method AreEventsSatisfied(events: map<int, string>, satisfied: map<string, int>, ids: seq<int>) returns (r: bool)
    ensures r <==> !SomeUnsatisfied(events, satisfied, ids)
  {
    var unsatisfied := set e | e in ids && e in events && (events[e] !in satisfied || e > satisfied[events[e]]);
    r := unsatisfied == {};
    if !r {
      ghost var e := MemberOf(unsatisfied);
      assert e in ids;
    }
    if SomeUnsatisfied(events, satisfied, ids) {
      ghost var e :| e in ids && e in events && (events[e] !in satisfied || e > satisfied[events[e]]);
      assert e in unsatisfied;
    }
  }

  lemma EmptySelection(s: seq<string>, selection: set<string>)
    requires forall n :: n in s <==> n in selection
    ensures s == [] <==> selection == {}
  {
    if s != [] { assert s[0] in s; }
    if selection != {} { var n := MemberOf(selection); }
  }

  lemma SameEmptiness(a: seq<int>, b: seq<int>)
    requires Fingerprints.SameElements(a, b)
    ensures a == [] <==> b == []
  {
    if a != [] {
      var x := a[0];
      assert x in a;
    }
    if b != [] {
      var x := b[0];
      assert x in b;
    }
  }

  lemma SameElementsSet(a: seq<int>, b: seq<int>)
    requires Fingerprints.SameElements(a, b)
    ensures Elements(a) == Elements(b)
    ensures forall events, satisfied :: SomeUnsatisfied(events, satisfied, a) <==> SomeUnsatisfied(events, satisfied, b)
  {
    forall x ensures x in Elements(a) <==> x in Elements(b) {
      assert x in a <==> x in b;
    }
    forall events, satisfied ensures SomeUnsatisfied(events, satisfied, a) <==> SomeUnsatisfied(events, satisfied, b) {
      if SomeUnsatisfied(events, satisfied, a) { UnsatisfiedOfSame(events, satisfied, a, b); }
      if SomeUnsatisfied(events, satisfied, b) { UnsatisfiedOfSame(events, satisfied, b, a); }
    }
  }

  lemma UnsatisfiedOfSame(events: map<int, string>, satisfied: map<string, int>, a: seq<int>, b: seq<int>)
    requires Fingerprints.SameElements(a, b) && SomeUnsatisfied(events, satisfied, a)
    ensures SomeUnsatisfied(events, satisfied, b)
  {
    var e :| e in a && e in events && (events[e] !in satisfied || e > satisfied[events[e]]);
    assert e in b;
  }

  /** Replanned after everything stale has run, each node after its stale parents, a source plan that was made for
      the events unsatisfied at first selects nothing more exactly when the run could settle them. */
  lemma ReplanAfterRunIsEmpty(cfg: Config, states: seq<State>, starts: map<string, nat>, ends: map<string, nat>,
                              ids: seq<int>, keys: seq<string>, stored: seq<string>, resources: seq<string>)
    requires Runnable(cfg) && Course(cfg, states, starts, ends)
    requires Elements(ids) == UnsatisfiedEvents(states[0]) && Elements(keys) == UnsatisfiedSources(states[0])
    requires ids != [] &&
      IsSourceReplan(cfg, states[|states| - 1], ids, keys, stored, ControlPlane.Select(resources))
    ensures resources == [] <==> Settles(cfg, UnsatisfiedSources(states[0]))
  {
    var st, st' := states[0], states[|states| - 1];
    assert OutcomeAt(cfg, states, 0, |states| - 1);
    StaleRunConverges(cfg, states, starts, ends);
    assert ids[0] in Elements(ids);
    NoTargetsNoKeys(st);
    assert keys != [] by {
      var s := MemberOf(UnsatisfiedSources(st));
      assert s in Elements(keys);
    }
    if !Settles(cfg, UnsatisfiedSources(st)) {
      var s := UnsettledStays(cfg, st, st');
      StaysListed(st, st', ids, s);
    }
    if SomeUnsatisfied(st'.events, st'.satisfied, ids) {
      EmptySelection(resources, StaleNodes(cfg, st', Elements(keys), Elements(ids)));
    }
  }

  /** A source that is unsatisfied still has its newest event among those that were. */
  lemma StaysListed(st: State, st': State, ids: seq<int>, s: string)
    requires st'.events == st.events && Elements(ids) == UnsatisfiedEvents(st)
    requires s in UnsatisfiedSources(st) && s in UnsatisfiedSources(st')
    ensures SomeUnsatisfied(st'.events, st'.satisfied, ids)
  {
    NewestIsEvent(st', s);
    assert Newest(st', s) == Newest(st, s) && Newest(st, s) in Elements(ids);
    assert Newest(st', s) in ids;
  }
}
