/** One reconcile cycle over sources: run the stale list, advance the pointers. */
module WatermarkCycle {
  import opened Watermarks
  import opened WatermarkSafety
  import opened WatermarkConvergence
  import opened WatermarkCourse

  /** An undisturbed advance call leaves each listed pointer at the newest event every node has reached. */
  lemma AdvanceReachesGreatest(cfg: Config, st: State, keys: set<string>, after: map<string, int>, s: string)
    requires Recorded(st) && PointersReached(cfg, st) && s in keys && HasAncestors(cfg)
    requires AdvancedOver(cfg, st, Beyond(st.events, st.satisfied, keys), after)
    ensures s in after <==> ReachedEvents(cfg, st, s) != {}
    ensures s in after ==> after[s] == MaxOf(ReachedEvents(cfg, st, s))
  {
    var rows, reached := Beyond(st.events, st.satisfied, keys), ReachedEvents(cfg, st, s);
    if s in st.satisfied { assert st.satisfied[s] in reached; }
    if reached != {} {
      var newest := MaxOf(reached);
      if s in st.satisfied && st.satisfied[s] >= newest {
        assert reached * rows == {};
      } else {
        assert newest in reached * rows;
      }
    }
  }

  /** It leaves the pointers of all other sources alone. */
  lemma OtherPointersStay(cfg: Config, st: State, keys: set<string>, after: map<string, int>, s: string)
    requires AdvancedOver(cfg, st, Beyond(st.events, st.satisfied, keys), after) && s !in keys
    ensures (s in after <==> s in st.satisfied) && (s in after ==> after[s] == st.satisfied[s])
  {
    var rows := Beyond(st.events, st.satisfied, keys);
    assert AdvancedAt(ReachedEvents(cfg, st, s) * rows, st.satisfied, after, s);
    assert ReachedEvents(cfg, st, s) * rows == {};
  }

  /** The newest event of an unsatisfied source lies beyond its pointer; it is reached iff no node is behind it. */
  lemma NewestReached(cfg: Config, st: State, s: string)
    requires HasAncestors(cfg) && s in UnsatisfiedSources(st)
    ensures Newest(st, s) in Beyond(st.events, st.satisfied, UnsatisfiedSources(st))
    ensures Newest(st, s) in ReachedEvents(cfg, st, s) <==> forall n ::
      n in cfg.manifest.NonSource() && cfg.manifest.Indexed(cfg.tracked, n, s) ==>
        Key(n, s) in st.marks && Newest(st, s) <= st.marks[Key(n, s)]
  {
    NewestIsEvent(st, s);
  }

  lemma PointerSettles(cfg: Config, st: State, after: map<string, int>, s: string)
    requires HasAncestors(cfg) && s in st.events.Values
    requires AdvancedOver(cfg, st, Beyond(st.events, st.satisfied, UnsatisfiedSources(st)), after)
    ensures s in UnsatisfiedSources(st.(satisfied := after)) <==>
      s in UnsatisfiedSources(st) && Newest(st, s) !in ReachedEvents(cfg, st, s)
  {
    var rows := Beyond(st.events, st.satisfied, UnsatisfiedSources(st));
    NewestIsEvent(st, s);
    assert Newest(st.(satisfied := after), s) == Newest(st, s);
    if s in UnsatisfiedSources(st) {
      NewestReached(cfg, st, s);
      if Newest(st, s) in ReachedEvents(cfg, st, s) {
        assert Newest(st, s) in ReachedEvents(cfg, st, s) * rows;
      }
    } else {
      assert ReachedEvents(cfg, st, s) * rows == {};
    }
  }

  /** After an advance over the unsatisfied sources nothing is unsatisfied exactly when nothing was stale. */
  lemma AdvanceSettlesIffNothingStale(cfg: Config, st: State, after: map<string, int>)
    requires HasAncestors(cfg)
    requires AdvancedOver(cfg, st, Beyond(st.events, st.satisfied, UnsatisfiedSources(st)), after)
    ensures UnsatisfiedSources(st.(satisfied := after)) == {} <==>
      StaleNodes(cfg, st, UnsatisfiedSources(st), UnsatisfiedEvents(st)) == {}
  {
    var keys, stale := UnsatisfiedSources(st), StaleNodes(cfg, st, UnsatisfiedSources(st), UnsatisfiedEvents(st));
    forall s | s in st.events.Values
      ensures s in UnsatisfiedSources(st.(satisfied := after)) <==>
        s in keys && Newest(st, s) !in ReachedEvents(cfg, st, s)
    {
      PointerSettles(cfg, st, after, s);
    }
    forall n | n in cfg.manifest.NonSource() ensures n !in stale <==> CaughtUp(cfg, st, keys, n) {
      NotStaleIsCaughtUp(cfg, st, st, n);
    }
    forall s | s in keys
      ensures Newest(st, s) in ReachedEvents(cfg, st, s) <==> forall n ::
        n in cfg.manifest.NonSource() && cfg.manifest.Indexed(cfg.tracked, n, s) ==>
          Key(n, s) in st.marks && Newest(st, s) <= st.marks[Key(n, s)]
    {
      NewestReached(cfg, st, s);
    }
    if n :| n in stale {
      StaleAreNonSource(cfg, st, n);
      var s :| s in keys && cfg.manifest.Indexed(cfg.tracked, n, s) &&
        !(Key(n, s) in st.marks && Newest(st, s) <= st.marks[Key(n, s)]);
      assert s in UnsatisfiedSources(st.(satisfied := after));
    }
  }

  /** Without a single index row no advance call ever moves a pointer. */
  lemma NoIndexNoAdvance(cfg: Config, st: State, rows: set<int>, after: map<string, int>)
    requires !HasAncestors(cfg) && AdvancedOver(cfg, st, rows, after)
    ensures after == st.satisfied
  {
    forall s ensures (s in after <==> s in st.satisfied) && (s in after ==> after[s] == st.satisfied[s]) {
      assert ReachedEvents(cfg, st, s) * rows == {};
      assert AdvancedAt(ReachedEvents(cfg, st, s) * rows, st.satisfied, after, s);
    }
  }

  /**
   * A whole cycle: everything that is stale runs successfully, each node after its stale parents, and an advance call
   * follows. Nothing is left unsatisfied if and only if nothing was, or the index is not empty and every listed node
   * is fed by its source.
   */
  lemma CycleConverges(cfg: Config, states: seq<State>, starts: map<string, nat>, ends: map<string, nat>,
                       after: map<string, int>)
    requires Runnable(cfg) && Course(cfg, states, starts, ends)
    requires var st := states[|states| - 1];
      AdvancedOver(cfg, st, Beyond(st.events, st.satisfied, UnsatisfiedSources(st)), after)
    ensures UnsatisfiedSources(states[|states| - 1].(satisfied := after)) == {} <==>
      UnsatisfiedSources(states[0]) == {} || (HasAncestors(cfg) && AllFed(cfg, UnsatisfiedSources(states[0])))
  {
    var st := states[|states| - 1];
    StaleRunConverges(cfg, states, starts, ends);
    if HasAncestors(cfg) {
      AdvanceSettlesIffNothingStale(cfg, st, after);
    } else {
      NoIndexNoAdvance(cfg, st, Beyond(st.events, st.satisfied, UnsatisfiedSources(st)), after);
      assert OutcomeAt(cfg, states, 0, |states| - 1);
      forall s | s in UnsatisfiedSources(states[0]) ensures s in UnsatisfiedSources(st) {
        UnreachedStaysUnsatisfied(cfg, states[0], st, s);
      }
    }
  }
}
