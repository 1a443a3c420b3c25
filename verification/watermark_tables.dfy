/** The watermark code itself, over the tables it updates in place. */
module WatermarkTables {
  import opened Common
  import opened Graph
  import opened AncestorIndex
  import opened Watermarks
  import opened WatermarkConvergence

  /** `contributed` lists (source, event) pairs; `rows` holds the least event of each listed source. */
  ghost predicate MinTable(rows: map<string, int>, contributed: set<(string, int)>) {
    && (forall s, v :: (s, v) in contributed ==> s in rows && rows[s] <= v)
    && (forall s :: s in rows ==> (s, rows[s]) in contributed)
  }

  function AddMin(rows: map<string, int>, s: string, v: int): map<string, int> {
    if s in rows && rows[s] <= v then rows else rows[s := v]
  }

  lemma MinTableAdd(rows: map<string, int>, contributed: set<(string, int)>, s: string, v: int)
    requires MinTable(rows, contributed)
    ensures MinTable(AddMin(rows, s, v), contributed + {(s, v)})
  {
  }

  ghost function FromMarks(marks: map<Key, int>, keys: set<Key>): set<(string, int)> {
    set k | k in keys && k in marks :: (k.source, marks[k])
  }

  ghost function FromEvents(events: map<int, string>, sources: set<string>): set<(string, int)> {
    set s | s in sources && Latest(events, s).Some? :: (s, Latest(events, s).value)
  }

  /** The parent rows of a node, and the parents that count with their newest event instead. */
  function ParentRows(marks: map<Key, int>, parents: set<string>): set<Key> {
    set k | k in marks && k.node in parents
  }

  function RowlessParents(marks: map<Key, int>, parents: set<string>): set<string> {
    set s | s in parents && Key(s, s) !in marks
  }

  lemma ContributionsSplit(cfg: Config, st: State, n: string, s: string, v: int)
    ensures var parents := Parents(cfg.manifest.edges, n);
      var rows := FromMarks(st.marks, ParentRows(st.marks, parents));
      v in Contributions(cfg, st, n, s) <==> (s, v) in rows + FromEvents(st.events, RowlessParents(st.marks, parents))
  {
    var parents := Parents(cfg.manifest.edges, n);
    if p :| p in parents && Key(p, s) in st.marks && st.marks[Key(p, s)] == v {
      assert Key(p, s) in ParentRows(st.marks, parents);
      assert (Key(p, s).source, st.marks[Key(p, s)]) == (s, v);
    }
    if (s, v) in FromMarks(st.marks, ParentRows(st.marks, parents)) {
      var k :| k in ParentRows(st.marks, parents) && (k.source, st.marks[k]) == (s, v);
      assert k == Key(k.node, s);
    }
  }

  lemma RowIsCandidate(cfg: Config, st: State, n: string, rows: map<string, int>, contributed: set<(string, int)>,
                       s: string)
    requires MinTable(rows, contributed)
    requires forall v :: (s, v) in contributed <==> v in Contributions(cfg, st, n, s)
    requires exists t :: cfg.manifest.Indexed(cfg.tracked, n, t)
    ensures s in rows <==> s in Candidates(cfg, st, n, false)
    ensures s in rows ==> rows[s] == Candidates(cfg, st, n, false)[s]
  {
    if s in rows {
      assert (s, rows[s]) in contributed;
      ContributionSource(cfg, st, n, s, rows[s]);
      assert (s, MinOf(Contributions(cfg, st, n, s))) in contributed;
    }
    if Contributions(cfg, st, n, s) != {} {
      assert (s, MinOf(Contributions(cfg, st, n, s))) in contributed;
    }
  }

  lemma MinTableIsCandidates(cfg: Config, st: State, n: string, rows: map<string, int>, contributed: set<(string, int)>)
    requires MinTable(rows, contributed)
    requires forall s, v :: (s, v) in contributed <==> v in Contributions(cfg, st, n, s)
    requires exists t :: cfg.manifest.Indexed(cfg.tracked, n, t)
    ensures rows == Candidates(cfg, st, n, false)
  {
    forall s
      ensures s in rows <==> s in Candidates(cfg, st, n, false)
      ensures s in rows ==> rows[s] == Candidates(cfg, st, n, false)[s]
    {
      RowIsCandidate(cfg, st, n, rows, contributed, s);
    }
  }

  lemma ContributionSource(cfg: Config, st: State, n: string, s: string, v: int)
    requires v in Contributions(cfg, st, n, s)
    ensures s in Sources(st)
  {
    if p :| p in Parents(cfg.manifest.edges, n) && Key(p, s) in st.marks {
      assert Key(p, s).source == s;
    } else {
      assert v in EventsOf(st.events, s);
      assert st.events[v] in st.events.Values;
    }
  }

  lemma ReachedEventsSame(cfg: Config, a: State, b: State, s: string)
    requires a.events == b.events && a.marks == b.marks
    ensures ReachedEvents(cfg, a, s) == ReachedEvents(cfg, b, s)
  {
  }

  /** One pointer through one more event `e`, which lies beyond where the pointer was at first. */
  lemma AdvancedAtOne(reached: set<int>, rows: set<int>, first: map<string, int>, before: map<string, int>, e: int,
                      after: map<string, int>, s: string)
    requires AdvancedAt(reached * rows, first, before, s) && e !in rows && (s in first ==> e > first[s])
    requires e in reached
    requires after == if s in before && before[s] >= e then before else before[s := e]
    ensures AdvancedAt(reached * (rows + {e}), first, after, s)
  {
    assert reached * (rows + {e}) == reached * rows + {e};
  }

  lemma AdvancedOne(cfg: Config, st: State, rows: set<int>, before: map<string, int>, e: int, after: map<string, int>)
    requires AdvancedOver(cfg, st, rows, before) && e in st.events && e !in rows
    requires rows + {e} <= Beyond(st.events, st.satisfied, st.events.Values)
    requires after == if e in ReachedEvents(cfg, st, st.events[e]) &&
                !(st.events[e] in before && before[st.events[e]] >= e) then before[st.events[e] := e] else before
    ensures AdvancedOver(cfg, st, rows + {e}, after)
  {
    forall s ensures AdvancedAt(ReachedEvents(cfg, st, s) * (rows + {e}), st.satisfied, after, s) {
      assert AdvancedAt(ReachedEvents(cfg, st, s) * rows, st.satisfied, before, s);
      if e in ReachedEvents(cfg, st, s) {
        assert e in Beyond(st.events, st.satisfied, st.events.Values);
        AdvancedAtOne(ReachedEvents(cfg, st, s), rows, st.satisfied, before, e, after, s);
      } else {
        assert ReachedEvents(cfg, st, s) * (rows + {e}) == ReachedEvents(cfg, st, s) * rows;
      }
    }
  }

  method Greatest(s: set<int>) returns (best: int)
    requires s != {}
    ensures best == MaxOf(s)
  {
    best := PickFrom(s);
    var rest := s;
    while rest != {}
      invariant best in s && rest <= s && forall e :: e in s ==> e in rest || e <= best
      decreases rest
    {
      var e := PickFrom(rest);
      rest := rest - {e};
      if e > best { best := e; }
    }
    assert forall e :: e in s ==> e <= best;
  }

  predicate HasMoved(before: map<Key, int>, after: map<Key, int>, key: Key) {
    key in after && (key !in before || before[key] != after[key])
  }

  lemma MovedHasMoved(before: map<Key, int>, after: map<Key, int>, n: string, s: string)
    ensures s in Moved(before, after, n) <==> HasMoved(before, after, Key(n, s))
  {
    if s in Moved(before, after, n) {
      var k :| k in after && k.node == n && (k !in before || before[k] != after[k]) && k.source == s;
      assert k == Key(n, s);
    }
    if HasMoved(before, after, Key(n, s)) { assert Key(n, s).source == s; }
  }

  class Tables {
    ghost const cfg: Config
    const manifest: Manifest
    const index: Index
    var events: map<int, string>
    var marks: map<Key, int>
    var log: seq<LogRow>
    var staged: map<StageKey, int>
    var satisfied: map<string, int>

    ghost predicate Valid()
      reads this
    {
      manifest == cfg.manifest && forall n, s :: (n, s) in index <==> manifest.Indexed(cfg.tracked, n, s)
    }

    /** The tables as a protocol state, no advance call being under way. */
    ghost function State(): State
      reads this
    {
      Watermarks.State(events, marks, log, staged, satisfied, {}, {})
    }

    /** A fresh environment: the index is computed from the manifest and the tracked keys. */
    constructor (manifest: Manifest, tracked: set<string>)
      ensures Valid() && cfg == Config(manifest, tracked) && State() == EMPTY
    {
      cfg := Config(manifest, tracked);
      this.manifest := manifest;
      var rows := PopulateAncestorSources(manifest, tracked);
      index := rows;
      events, marks, log, staged, satisfied := map[], map[], [], map[], map[];
    }

    method LatestSourceEvent(s: string) returns (r: Option<int>)
      ensures r == Latest(events, s)
    {
      var own := EventsOf(events, s);
      if own == {} {
        return None;
      }
      var newest := Greatest(own);
      r := Some(newest);
    }

    /** MIN per source over the given rows. */
    method MinOverRows(keys: set<Key>) returns (rows: map<string, int>)
      requires keys <= marks.Keys
      ensures MinTable(rows, FromMarks(marks, keys))
    {
      rows := map[];
      var rest := keys;
      while rest != {}
        invariant rest <= keys && MinTable(rows, FromMarks(marks, keys - rest))
        decreases rest
      {
        var k := PickFrom(rest);
        MinTableAdd(rows, FromMarks(marks, keys - rest), k.source, marks[k]);
        assert FromMarks(marks, keys - (rest - {k})) == FromMarks(marks, keys - rest) + {(k.source, marks[k])};
        rows := AddMin(rows, k.source, marks[k]);
        rest := rest - {k};
      }
    }

    /** The rows joined with the newest event of each listed source. */
    method MinWithFallback(rows0: map<string, int>, ghost contributed: set<(string, int)>, sources: set<string>)
      returns (rows: map<string, int>)
      requires MinTable(rows0, contributed)
      ensures MinTable(rows, contributed + FromEvents(events, sources))
    {
      rows := rows0;
      var rest := sources;
      assert contributed + FromEvents(events, {}) == contributed;
      while rest != {}
        invariant rest <= sources && MinTable(rows, contributed + FromEvents(events, sources - rest))
        decreases rest
      {
        var s := PickFrom(rest);
        var newest := LatestSourceEvent(s);
        ghost var before := contributed + FromEvents(events, sources - rest);
        if newest.Some? {
          MinTableAdd(rows, before, s, newest.value);
          rows := AddMin(rows, s, newest.value);
          assert contributed + FromEvents(events, sources - (rest - {s})) == before + {(s, newest.value)};
        } else {
          assert contributed + FromEvents(events, sources - (rest - {s})) == before;
        }
        rest := rest - {s};
      }
      assert sources - {} == sources;
    }

    /** MIN over parent rows, and over the newest event of each parent source without a row of its own. */
    method LoadParentWatermarksMin(ghost n: string, parents: set<string>) returns (rows: map<string, int>)
      requires Valid() && parents == Parents(manifest.edges, n)
      requires exists t :: manifest.Indexed(cfg.tracked, n, t)
      ensures rows == Candidates(cfg, State(), n, false)
    {
      var keys := ParentRows(marks, parents);
      rows := MinOverRows(keys);
      rows := MinWithFallback(rows, FromMarks(marks, keys), RowlessParents(marks, parents));
      forall s, v ensures (s, v) in FromMarks(marks, keys) + FromEvents(events, RowlessParents(marks, parents)) <==>
        v in Contributions(cfg, State(), n, s)
      {
        ContributionsSplit(cfg, State(), n, s, v);
      }
      MinTableIsCandidates(cfg, State(), n, rows,
        FromMarks(marks, keys) + FromEvents(events, RowlessParents(marks, parents)));
    }

    /** Node start: stages the candidates, one upsert per source. */
    method StartNode(run: nat, n: string, isSource: bool)
      requires Valid()
      modifies this`staged
      ensures Valid()
      ensures State() == Apply(old(State()), Start(run, n, isSource, Candidates(cfg, old(State()), n, isSource)))
    {
      var ancestors := set x | x in index && x.0 == n;
      if ancestors == {} {
        forall t ensures !manifest.Indexed(cfg.tracked, n, t) { assert (n, t) !in ancestors; }
        assert Candidates(cfg, State(), n, isSource) == map[];
        return;
      }
      assert exists t :: manifest.Indexed(cfg.tracked, n, t) by {
        var x :| x in ancestors;
        assert x == (n, x.1);
      }
      var candidates: map<string, int>;
      if isSource {
        var newest := LatestSourceEvent(n);
        candidates := if newest.Some? then map[n := newest.value] else map[];
        SelfCandidate(cfg, State(), n);
      } else {
        var parents := Parents(manifest.edges, n);
        candidates := LoadParentWatermarksMin(n, parents);
      }
      InsertCandidates(run, n, candidates);
    }

    method InsertCandidates(run: nat, n: string, candidates: map<string, int>)
      modifies this`staged
      ensures staged == Stage(old(staged), run, n, candidates)
      ensures forall s :: s in candidates ==>
        StageKey(run, n, s) in staged && staged[StageKey(run, n, s)] == candidates[s]
      ensures forall k: StageKey :: !(k.run == run && k.node == n && k.source in candidates) ==>
        (k in staged <==> k in old(staged)) && (k in staged ==> staged[k] == old(staged)[k])
    {
      var rest := candidates.Keys;
      while rest != {}
        invariant rest <= candidates.Keys
        invariant staged == Stage(old(staged), run, n, candidates - rest)
        decreases rest
      {
        var s := PickFrom(rest);
        ghost var before := staged;
        staged := staged[StageKey(run, n, s) := candidates[s]];
        StageOneMore(old(staged), run, n, candidates, rest, s);
        rest := rest - {s};
      }
      assert candidates - {} == candidates;
    }

    /** Commits the loaded candidates, one guarded upsert and log row each; returns what advanced. */
    method CommitNodeWatermarks(run: nat, n: string, order: seq<string>) returns (advanced: seq<string>)
      requires Valid()
      modifies this`marks, this`log
      ensures Valid() && State() == CommitAll(old(State()), run, n, order)
      ensures forall s :: s in advanced <==> s in Moved(old(marks), marks, n)
    {
      advanced := [];
      for i := 0 to |order|
        invariant Valid() && State() == CommitAll(old(State()), run, n, order[..i])
        invariant forall s :: s in advanced <==> HasMoved(old(marks), marks, Key(n, s))
        invariant forall k :: k in old(marks) ==> k in marks && old(marks)[k] <= marks[k]
      {
        var s := order[i];
        assert order[..i + 1][..i] == order[..i];
        var key, row := Key(n, s), StageKey(run, n, s);
        if row !in staged {
          continue;
        }
        var previous := if key in marks then Some(marks[key]) else None;
        if previous.Some? && previous.value >= staged[row] {
          continue;
        }
        marks := marks[key := staged[row]];
        log := log + [LogRow(key, staged[row], previous, run)];
        advanced := advanced + [s];
      }
      assert order[..|order|] == order;
      forall s ensures s in Moved(old(marks), marks, n) <==> HasMoved(old(marks), marks, Key(n, s)) {
        MovedHasMoved(old(marks), marks, n, s);
      }
    }

    method DeleteCandidates(run: nat, n: string)
      requires Valid()
      modifies this`staged
      ensures Valid() && State() == Discard(old(State()), run, n)
      ensures forall k :: k in staged <==> k in old(staged) && !(k.run == run && k.node == n)
      ensures forall k :: k in staged ==> staged[k] == old(staged)[k]
    {
      staged := map k | k in staged && !(k.run == run && k.node == n) :: staged[k];
    }

    /** Node finish: a promotable finish commits the staged rows and advances the sources that moved; every finish
        clears the staged rows. */
    method FinishNode(run: nat, n: string, promotable: bool) returns (order: seq<string>)
      requires Valid()
      modifies this
      ensures Valid()
      ensures forall s :: s in order <==> StageKey(run, n, s) in old(staged)
      ensures State() ==
        if promotable then FinishSuccess(cfg, old(State()), run, n, order) else Discard(old(State()), run, n)
    {
      var sources := set k | k in staged && k.run == run && k.node == n :: k.source;
      forall s ensures s in sources <==> StageKey(run, n, s) in staged {
        assert StageKey(run, n, s).source == s;
      }
      order := SortedElements(sources);
      if promotable {
        ghost var before := marks;
        var advanced := CommitNodeWatermarks(run, n, order);
        ghost var committed := State();
        var keys := set s | s in advanced;
        assert keys == Moved(before, marks, n);
        AdvanceSatisfied(keys);
        AdvancedOverIff(cfg, committed, Beyond(events, committed.satisfied, keys), satisfied);
        assert State() == AdvanceAll(cfg, committed, keys);
      }
      DeleteCandidates(run, n);
    }

    /** A node that starts and succeeds undisturbed is one execution of the protocol's runs. */
    method RunNode(run: nat, n: string) returns (order: seq<string>)
      requires Valid()
      modifies this
      ensures Valid() && ListsStaged(cfg, old(State()), NodeRun(run, n, order))
      ensures State() == Execute(cfg, old(State()), NodeRun(run, n, order))
    {
      StartNode(run, n, false);
      order := FinishNode(run, n, true);
    }

    /** No indexed non-source node below `s` lacks a watermark of at least `e`; never so without an index. */
    method AreAllDownstreamSatisfied(s: string, e: int) returns (satisfied: bool)
      requires Valid()
      ensures satisfied <==> HasAncestors(cfg) && AllReached(cfg, State(), s, e)
    {
      if index == {} {
        forall n, t ensures !cfg.manifest.Indexed(cfg.tracked, n, t) { assert (n, t) !in index; }
        return false;
      }
      var stale := set x | x in index && x.1 == s && x.0 in manifest.NonSource() &&
        (Key(x.0, s) !in marks || marks[Key(x.0, s)] < e);
      satisfied := stale == {};
      assert HasAncestors(cfg) by {
        var x :| x in index;
        assert x == (x.0, x.1);
      }
      if !satisfied {
        var x :| x in stale;
        assert x == (x.0, s);
      } else {
        forall n | n in cfg.manifest.NonSource() && cfg.manifest.Indexed(cfg.tracked, n, s)
          ensures Key(n, s) in marks && e <= marks[Key(n, s)]
        {
          assert (n, s) in index && (n, s) !in stale;
        }
      }
    }

    /** Checks one event and, if every node has reached it, moves its source's pointer up to it. */
    method AdvanceOver(e: int)
      requires Valid() && e in events
      modifies this`satisfied
      ensures Valid()
      ensures var s, before := events[e], old(satisfied);
        satisfied == if e in ReachedEvents(cfg, old(State()), s) && !(s in before && before[s] >= e)
          then before[s := e] else before
    {
      var s := events[e];
      var reached := AreAllDownstreamSatisfied(s, e);
      if reached && !(s in satisfied && satisfied[s] >= e) {
        satisfied := satisfied[s := e];
      }
    }

    /** Goes over every event of the keys beyond its pointer. */
    method AdvanceSatisfied(keys: set<string>)
      requires Valid()
      modifies this`satisfied
      ensures Valid()
      ensures AdvancedOver(cfg, old(State()), Beyond(events, old(satisfied), keys), satisfied)
    {
      var rows := Beyond(events, satisfied, keys);
      ghost var st := State();
      var rest := rows;
      while rest != {}
        invariant rest <= rows && Valid() && AdvancedOver(cfg, st, rows - rest, satisfied)
        decreases rest
      {
        var e := PickFrom(rest);
        ghost var before := satisfied;
        ReachedEventsSame(cfg, st, State(), events[e]);
        AdvanceOver(e);
        AdvancedOne(cfg, st, rows - rest, before, e, satisfied);
        assert rows - (rest - {e}) == rows - rest + {e};
        rest := rest - {e};
      }
      assert rows - {} == rows;
    }

    /** The nodes to run for the targeted events of the keys, in ascending order. */
    method ListStaleDownstreamNodes(keys: set<string>, targets: set<int>) returns (r: seq<string>)
      requires Valid()
      ensures StrictlySorted(r) && forall n :: n in r <==> n in StaleNodes(cfg, State(), keys, targets)
      ensures keys == {} || targets == {} ==> r == []
      ensures !HasAncestors(cfg) && keys != {} && targets != {} ==>
        forall n :: n in r <==>
          n in manifest.NonSource() && exists s :: s in keys && Reaches(manifest.edges, Nodes(manifest.edges), s, n)
      ensures HasAncestors(cfg) && targets != {} ==> forall n :: n in r <==>
        n in manifest.NonSource() &&
        exists s :: s in keys && manifest.Indexed(cfg.tracked, n, s) && MissesTarget(State(), n, s, targets)
    {
      if HasAncestors(cfg) && targets != {} {
        forall n { ListedIff(cfg, State(), keys, targets, n); }
      }
      if keys == {} || targets == {} {
        return [];
      }
      if index == {} {
        forall n, t ensures !cfg.manifest.Indexed(cfg.tracked, n, t) { assert (n, t) !in index; }
        r := ListDownstream(manifest, keys);
        return;
      }
      assert HasAncestors(cfg) by {
        var x :| x in index;
        assert x == (x.0, x.1);
      }
      var found: set<string> := {};
      var rest := keys;
      while rest != {}
        invariant rest <= keys
        invariant forall n :: n in found <==>
          exists s :: s in keys - rest &&
            n in manifest.NonSource() && manifest.Indexed(cfg.tracked, n, s) && Behind(State(), n, s, targets)
        decreases rest
      {
        var s := PickFrom(rest);
        var behind := ListBehind(s, targets);
        found := found + behind;
        rest := rest - {s};
      }
      assert keys - {} == keys;
      r := SortedElements(found);
    }

    method ListUnsatisfiedSources() returns (sources: set<string>)
      ensures sources == UnsatisfiedSources(State())
    {
      var rows := Beyond(events, satisfied, events.Values);
      sources := set e | e in rows :: events[e];
      forall e | e in rows ensures events[e] in UnsatisfiedSources(State()) {
        assert e in EventsOf(events, events[e]);
        assert events[e] in events.Values;
      }
      forall s | s in UnsatisfiedSources(State()) ensures s in sources {
        NewestIsEvent(State(), s);
        assert Newest(State(), s) in rows;
      }
    }

    /** The reconcile cycle's first step: advance over what is unsatisfied, then load what still is. */
    method AdvanceAndLoadUnsatisfied() returns (sources: set<string>)
      requires Valid()
      modifies this`satisfied
      ensures Valid() && sources == UnsatisfiedSources(State())
      ensures AdvancedOver(cfg, old(State()), Beyond(events, old(satisfied), UnsatisfiedSources(old(State()))),
        satisfied)
    {
      var before := ListUnsatisfiedSources();
      AdvanceSatisfied(before);
      sources := ListUnsatisfiedSources();
    }

    method ListBehind(s: string, targets: set<int>) returns (found: set<string>)
      requires Valid()
      ensures forall n :: n in found <==>
        n in manifest.NonSource() && manifest.Indexed(cfg.tracked, n, s) && Behind(State(), n, s, targets)
    {
      var target := NewestTarget(s, targets);
      found := set x | x in index && x.1 == s && x.0 in manifest.NonSource() &&
        (Key(x.0, s) !in marks || (target.Some? && marks[Key(x.0, s)] < target.value)) :: x.0;
      forall n | manifest.Indexed(cfg.tracked, n, s) ensures (n, s).0 == n && (n, s).1 == s && (n, s) in index {
      }
    }

    method NewestTarget(s: string, targets: set<int>) returns (r: Option<int>)
      ensures r == TargetOf(State(), s, targets)
    {
      var own := EventsOf(events, s) * targets;
      if own == {} {
        return None;
      }
      var newest := Greatest(own);
      r := Some(newest);
    }
  }

  lemma SelfCandidate(cfg: Config, st: State, n: string)
    requires exists t :: cfg.manifest.Indexed(cfg.tracked, n, t)
    ensures Candidates(cfg, st, n, true) ==
      if Latest(st.events, n).Some? then map[n := Latest(st.events, n).value] else map[]
  {
    if Latest(st.events, n).Some? {
      assert st.events[Latest(st.events, n).value] in st.events.Values;
    }
  }

  lemma StageOneMore(staged: map<StageKey, int>, run: nat, n: string, candidates: map<string, int>, rest: set<string>,
                     s: string)
    requires s in rest && rest <= candidates.Keys
    ensures Stage(staged, run, n, candidates - rest)[StageKey(run, n, s) := candidates[s]] ==
      Stage(staged, run, n, candidates - (rest - {s}))
  {
  }
}
