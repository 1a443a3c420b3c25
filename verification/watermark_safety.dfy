/** What holds of committed watermarks in every interleaving. */
module WatermarkSafety {
  import opened Common
  import opened Watermarks

  // ---------------------------------------------------------------------------------------------
  // Where a watermark comes from

  ghost predicate IsStart(step: Step, run: nat, n: string) {
    step.Start? && step.run == run && step.node == n
  }

  /** Step `i` is a start of the row's node in its run that stages `e` for the row's source. */
  ghost predicate StagesAt(h: Execution, i: nat, row: StageKey, e: int) {
    && i < |h.steps| && IsStart(h.steps[i], row.run, row.node)
    && row.source in h.steps[i].candidates && h.steps[i].candidates[row.source] == e
  }

  /** Step `l` is the last start of `n` in `run` among the first `k` steps. */
  ghost predicate LastStart(h: Execution, k: nat, l: nat, run: nat, n: string) {
    l < k <= |h.steps| && IsStart(h.steps[l], run, n) && forall j :: l < j < k ==> !IsStart(h.steps[j], run, n)
  }

  /** A row that is staged after a step was staged by it, or before it with the same value. */
  lemma StagedBefore(st: State, step: Step, row: StageKey)
    requires row in Apply(st, step).staged
    ensures
      || (row in st.staged && st.staged[row] == Apply(st, step).staged[row])
      || (IsStart(step, row.run, row.node) && row.source in step.candidates &&
          step.candidates[row.source] == Apply(st, step).staged[row])
  {
  }

  /** A staged row was staged by a start of its run and node, no later than the last one. */
  lemma {:induction false} StagedProvenance(h: Execution, k: nat, row: StageKey) returns (i: nat, l: nat)
    requires Steps(h) && k <= |h.steps| && row in h.states[k].staged
    ensures StagesAt(h, i, row, h.states[k].staged[row])
    ensures LastStart(h, k, l, row.run, row.node) && i <= l
  {
    var st, step := h.states[k - 1], h.steps[k - 1];
    assert h.states[k - 1 + 1] == Apply(st, step);
    StagedBefore(st, step, row);
    if row in st.staged && st.staged[row] == h.states[k].staged[row] {
      i, l := StagedProvenance(h, k - 1, row);
    } else {
      i := k - 1;
    }
    if IsStart(step, row.run, row.node) { l := k - 1; }
  }

  /** A finish loads exactly the staged rows of its own run and node. */
  lemma LoadTakesOwnRows(st: State, run: nat, n: string, row: StageKey, e: int)
    ensures (row, e) in Apply(st, Load(run, n)).loaded <==>
      (row, e) in st.loaded || (row.run == run && row.node == n && row in st.staged && st.staged[row] == e)
  {
  }

  lemma LoadedBefore(h: Execution, k: nat, row: StageKey, e: int)
    requires Steps(h) && k < |h.steps| && (row, e) in h.states[k + 1].loaded
    ensures (row, e) in h.states[k].loaded || (row in h.states[k].staged && h.states[k].staged[row] == e)
  {
    assert h.states[k + 1] == Apply(h.states[k], h.steps[k]);
  }

  /** A row that a finish has loaded was staged when it was. */
  lemma {:induction false} LoadedWasStaged(h: Execution, k: nat, row: StageKey, e: int) returns (j: nat)
    requires Steps(h) && k <= |h.steps| && (row, e) in h.states[k].loaded
    ensures j < k && row in h.states[j].staged && h.states[j].staged[row] == e
  {
    LoadedBefore(h, k - 1, row, e);
    if (row, e) in h.states[k - 1].loaded {
      j := LoadedWasStaged(h, k - 1, row, e);
    } else {
      j := k - 1;
    }
  }

  /** Where there is a start, there is a last one. */
  lemma {:induction false} LastStartExists(h: Execution, k: nat, i: nat, run: nat, n: string) returns (l: nat)
    requires i < k <= |h.steps| && IsStart(h.steps[i], run, n)
    ensures LastStart(h, k, l, run, n) && i <= l
  {
    if IsStart(h.steps[k - 1], run, n) {
      l := k - 1;
    } else {
      l := LastStartExists(h, k - 1, i, run, n);
    }
  }

  /** It was staged by a start of its run and node, no later than the last one. */
  lemma LoadedProvenance(h: Execution, k: nat, row: StageKey, e: int) returns (i: nat, l: nat)
    requires Steps(h) && k <= |h.steps| && (row, e) in h.states[k].loaded
    ensures StagesAt(h, i, row, e) && LastStart(h, k, l, row.run, row.node) && i <= l
  {
    var j := LoadedWasStaged(h, k, row, e);
    i, l := StagedProvenance(h, j, row);
    l := LastStartExists(h, k, l, row.run, row.node);
  }

  /** Step `c` commits the value `e` for the key. */
  ghost predicate CommitsAt(h: Execution, c: nat, key: Key, e: int)
    requires |h.states| == |h.steps| + 1
  {
    c < |h.steps| && h.steps[c].Commit? && h.steps[c].node == key.node && h.steps[c].source == key.source &&
    h.steps[c].event == e
  }

  /** Step `c` writes the value to the watermark: it commits it, and the guard lets it through. */
  ghost predicate WritesAt(h: Execution, c: nat, key: Key, e: int)
    requires |h.states| == |h.steps| + 1
  {
    CommitsAt(h, c, key, e) && (key !in h.states[c].marks || h.states[c].marks[key] < e)
  }

  /** The watermark holds the value in every state after `c` up to `k`. */
  ghost predicate HoldsSince(h: Execution, c: nat, k: nat, key: Key, e: int)
    requires k < |h.states|
  {
    forall m :: c < m <= k ==> key in h.states[m].marks && h.states[m].marks[key] == e
  }

  /** A watermark was written by one commit step, and has stood since. */
  lemma {:induction false} MarkProvenance(h: Execution, k: nat, key: Key) returns (c: nat)
    requires Steps(h) && k <= |h.steps| && key in h.states[k].marks
    ensures c < k && WritesAt(h, c, key, h.states[k].marks[key])
    ensures HoldsSince(h, c, k, key, h.states[k].marks[key])
  {
    var before := h.states[k - 1].marks;
    assert h.states[k - 1 + 1] == Apply(h.states[k - 1], h.steps[k - 1]);
    if key in before && before[key] == h.states[k].marks[key] {
      c := MarkProvenance(h, k - 1, key);
    } else {
      c := k - 1;
    }
  }

  /** Whatever a commit step has loaded was a recorded event of its source when the execution last started. */
  lemma CommitFindsPast(cfg: Config, h: Execution, c: nat, key: Key, e: int) returns (l: nat)
    requires Runs(cfg, h) && CommitsAt(h, c, key, e)
    ensures LastStart(h, c, l, h.steps[c].run, key.node) && e in EventsOf(h.states[l].events, key.source)
  {
    var i: nat;
    i, l := LoadedProvenance(h, c, StageKey(h.steps[c].run, key.node, key.source), e);
    StagedAreEvents(cfg, h, i, key.source);
    ExecutionForward(cfg, h, i, l);
  }

  /**
   * No claim on the future: in every interleaving a committed watermark was written by one step, has stood since, and
   * is an event of its source that was recorded already when the execution that wrote it last started.
   */
  lemma NoClaimOnTheFuture(cfg: Config, h: Execution, k: nat, key: Key) returns (c: nat, l: nat)
    requires Runs(cfg, h) && k <= |h.steps| && key in h.states[k].marks
    ensures c < k && WritesAt(h, c, key, h.states[k].marks[key]) && HoldsSince(h, c, k, key, h.states[k].marks[key])
    ensures LastStart(h, c, l, h.steps[c].run, key.node)
    ensures h.states[k].marks[key] in EventsOf(h.states[l].events, key.source)
  {
    c := MarkProvenance(h, k, key);
    l := CommitFindsPast(cfg, h, c, key, h.states[k].marks[key]);
  }

  lemma StagedAreEvents(cfg: Config, h: Execution, i: nat, s: string)
    requires Runs(cfg, h) && i < |h.steps| && h.steps[i].Start? && s in h.steps[i].candidates
    ensures h.steps[i].candidates[s] in EventsOf(h.states[i].events, s)
  {
    AlwaysRecorded(cfg, h, i);
    CandidatesRecorded(cfg, h.states[i], h.steps[i].node, h.steps[i].isSource, s);
  }

  /** The parent watermarks that entered the MIN for `s` when step `i` started `n`. */
  function Contributors(cfg: Config, st: State, n: string, s: string): set<Key> {
    set p | p in Parents(cfg.manifest.edges, n) && Key(p, s) in st.marks :: Key(p, s)
  }

  /** A committed watermark, written by step `c` from what step `i` staged, is at most each of the contributors of
      that start, then and ever after. */
  lemma ContributorsDominate(cfg: Config, h: Execution, k: nat, key: Key) returns (c: nat, i: nat)
    requires Runs(cfg, h) && k <= |h.steps| && key in h.states[k].marks
    ensures i < c < k && WritesAt(h, c, key, h.states[k].marks[key]) && HoldsSince(h, c, k, key, h.states[k].marks[key])
    ensures StagesAt(h, i, StageKey(h.steps[c].run, key.node, key.source), h.states[k].marks[key])
    ensures !h.steps[i].isSource ==> forall p, m ::
      p in Contributors(cfg, h.states[i], key.node, key.source) && k <= m <= |h.steps| ==>
        p in h.states[m].marks && h.states[k].marks[key] <= h.states[m].marks[p]
  {
    c := MarkProvenance(h, k, key);
    var l: nat;
    i, l := LoadedProvenance(h, c, StageKey(h.steps[c].run, key.node, key.source), h.states[k].marks[key]);
    if !h.steps[i].isSource {
      forall p, m | p in Contributors(cfg, h.states[i], key.node, key.source) && k <= m <= |h.steps|
        ensures p in h.states[m].marks && h.states[k].marks[key] <= h.states[m].marks[p]
      {
        ContributorDominates(cfg, h.states[i], key.node, key.source, p);
        ExecutionForward(cfg, h, i, m);
      }
    }
  }

  lemma ContributorDominates(cfg: Config, st: State, n: string, s: string, p: Key)
    requires s in Candidates(cfg, st, n, false) && p in Contributors(cfg, st, n, s)
    ensures Candidates(cfg, st, n, false)[s] <= st.marks[p]
  {
    assert st.marks[p] in Contributions(cfg, st, n, s);
  }

  // ---------------------------------------------------------------------------------------------
  // The audit log

  /** The log rows of one key, oldest first. */
  function LogOf(log: seq<LogRow>, key: Key): seq<LogRow> {
    if log == [] then []
    else LogOf(log[..|log| - 1], key) + if log[|log| - 1].key == key then [log[|log| - 1]] else []
  }

  /** Rows climb strictly and each names its predecessor. */
  ghost predicate Chained(rows: seq<LogRow>) {
    && (forall i, j :: 0 <= i < j < |rows| ==> rows[i].eventId < rows[j].eventId)
    && (|rows| > 0 ==> rows[0].previous == None)
    && (forall i :: 0 < i < |rows| ==> rows[i].previous == Some(rows[i - 1].eventId))
  }

  lemma ChainedAppend(rows: seq<LogRow>, row: LogRow)
    requires Chained(rows)
    requires row.previous == if |rows| == 0 then None else Some(rows[|rows| - 1].eventId)
    requires row.previous.Some? ==> row.previous.value < row.eventId
    ensures Chained(rows + [row])
  {
    var all := rows + [row];
    forall i, j | 0 <= i < j < |all| ensures all[i].eventId < all[j].eventId {
      assert j < |rows| || i == |rows| - 1 || rows[i].eventId < rows[|rows| - 1].eventId;
    }
    forall i | 0 < i < |all| ensures all[i].previous == Some(all[i - 1].eventId) {
      assert all[i - 1] == rows[i - 1];
    }
  }

  /** The rows of a key are chained and the last one is the live watermark. */
  ghost predicate Audited(log: seq<LogRow>, marks: map<Key, int>, key: Key) {
    var rows := LogOf(log, key);
    && Chained(rows)
    && (key in marks <==> rows != [])
    && (rows != [] ==> rows[|rows| - 1].eventId == marks[key])
  }

  /** Appending a row that names the live watermark as its predecessor keeps the chain. */
  lemma AuditRowAppended(log: seq<LogRow>, marks: map<Key, int>, row: LogRow, key: Key)
    requires Audited(log, marks, key)
    requires row.previous == if row.key in marks then Some(marks[row.key]) else None
    requires row.previous.Some? ==> row.previous.value < row.eventId
    ensures Audited(log + [row], marks[row.key := row.eventId], key)
  {
    assert (log + [row])[..|log + [row]| - 1] == log;
    if row.key == key {
      assert LogOf(log + [row], key) == LogOf(log, key) + [row];
      ChainedAppend(LogOf(log, key), row);
    } else {
      assert LogOf(log + [row], key) == LogOf(log, key);
    }
  }

  /** A step leaves log and watermarks alone, or moves one watermark and logs the move. */
  lemma LoggedMove(st: State, step: Step) returns (moved: bool, row: LogRow)
    ensures !moved ==> Apply(st, step).log == st.log && Apply(st, step).marks == st.marks
    ensures moved ==> Apply(st, step).log == st.log + [row] && Apply(st, step).marks == st.marks[row.key := row.eventId]
    ensures moved ==> row.previous == if row.key in st.marks then Some(st.marks[row.key]) else None
    ensures moved && row.previous.Some? ==> row.previous.value < row.eventId
  {
    moved, row := false, LogRow(Key("", ""), 0, None, 0);
    if step.Commit? {
      var at := Key(step.node, step.source);
      var previous := if at in st.marks then Some(st.marks[at]) else None;
      moved, row := previous.None? || previous.value < step.event, LogRow(at, step.event, previous, step.run);
    }
  }

  lemma AuditKept(st: State, step: Step, key: Key)
    requires Audited(st.log, st.marks, key)
    ensures Audited(Apply(st, step).log, Apply(st, step).marks, key)
  {
    var moved, row := LoggedMove(st, step);
    if moved {
      AuditRowAppended(st.log, st.marks, row, key);
    }
  }

  /** In every interleaving each key has a strictly increasing, linked log that ends at its live watermark. */
  lemma {:induction false} AlwaysAudited(h: Execution, k: nat, key: Key)
    requires Steps(h) && k <= |h.steps|
    ensures Audited(h.states[k].log, h.states[k].marks, key)
  {
    if k > 0 {
      AlwaysAudited(h, k - 1, key);
      AuditKept(h.states[k - 1], h.steps[k - 1], key);
      assert h.states[k - 1 + 1] == h.states[k];
    }
  }

  // ---------------------------------------------------------------------------------------------
  // The satisfied pointer

  /** Whatever is called satisfied, or was checked and is about to be, has been reached by every node. */
  ghost predicate PointersReached(cfg: Config, st: State) {
    && (forall s :: s in st.satisfied ==> AllReached(cfg, st, s, st.satisfied[s]))
    && (forall s, e :: (s, e) in st.passed ==> AllReached(cfg, st, s, e))
  }

  lemma AllReachedForward(cfg: Config, a: State, b: State, s: string, e: int)
    requires AllReached(cfg, a, s, e) && Forward(a, b)
    ensures AllReached(cfg, b, s, e)
  {
    forall n | n in cfg.manifest.NonSource() && cfg.manifest.Indexed(cfg.tracked, n, s)
      ensures Key(n, s) in b.marks && e <= b.marks[Key(n, s)]
    {
      assert Key(n, s) in a.marks;
    }
  }

  lemma PointersReachedKept(cfg: Config, st: State, step: Step)
    requires PointersReached(cfg, st) && Enabled(cfg, st, step)
    ensures PointersReached(cfg, Apply(st, step))
  {
    var st' := Apply(st, step);
    StepForward(cfg, st, step);
    forall s | s in st'.satisfied ensures AllReached(cfg, st', s, st'.satisfied[s]) {
      if s in st.satisfied && st'.satisfied[s] == st.satisfied[s] {
        AllReachedForward(cfg, st, st', s, st.satisfied[s]);
      } else {
        AllReachedForward(cfg, st, st', s, step.event);
      }
    }
    forall s, e | (s, e) in st'.passed ensures AllReached(cfg, st', s, e) {
      if (s, e) in st.passed { AllReachedForward(cfg, st, st', s, e); }
    }
  }

  /** A check succeeds exactly when the event is recorded, there is an index, and every indexed non-source node has a
      watermark at or above the event. */
  lemma CheckSucceedsIff(cfg: Config, st: State, s: string, e: int)
    ensures Enabled(cfg, st, Check(s, e)) <==>
      && e in st.events && st.events[e] == s && (exists n, t :: cfg.manifest.Indexed(cfg.tracked, n, t))
      && forall n :: n in cfg.manifest.NonSource() && cfg.manifest.Indexed(cfg.tracked, n, s) ==>
           Key(n, s) in st.marks && st.marks[Key(n, s)] >= e
  {
  }

  /** After a check, and only after one, its pointer can be moved, whatever happens in between. */
  lemma {:induction false} AdvanceFollowsCheck(cfg: Config, h: Execution, k: nat, s: string, e: int)
    requires Runs(cfg, h) && k <= |h.steps|
    ensures Enabled(cfg, h.states[k], Advance(s, e)) <==> exists j :: 0 <= j < k && h.steps[j] == Check(s, e)
  {
    if k > 0 {
      AdvanceFollowsCheck(cfg, h, k - 1, s, e);
      assert h.states[k - 1 + 1] == Apply(h.states[k - 1], h.steps[k - 1]);
    }
  }

  /** A pointer move takes the pointer to the event unless it is there or beyond, and moves no other. */
  lemma AdvanceTakesPointer(cfg: Config, h: Execution, k: nat, t: string)
    requires Runs(cfg, h) && k < |h.steps| && h.steps[k].Advance?
    ensures var s, e, before, after := h.steps[k].source, h.steps[k].event, h.states[k].satisfied,
                h.states[k + 1].satisfied;
      && (t == s ==> t in after && after[t] == if t in before && before[t] > e then before[t] else e)
      && (t != s ==> (t in after <==> t in before) && (t in after ==> after[t] == before[t]))
  {
    assert h.states[k + 1] == Apply(h.states[k], h.steps[k]);
  }

  /**
   * In every interleaving of advance calls, commits and new events the pointer of a source names an event
   * that every indexed non-source node below the source has reached.
   */
  lemma {:induction false} PointersAlwaysReached(cfg: Config, h: Execution, k: nat)
    requires Runs(cfg, h) && k <= |h.steps|
    ensures PointersReached(cfg, h.states[k])
  {
    if k > 0 {
      PointersAlwaysReached(cfg, h, k - 1);
      PointersReachedKept(cfg, h.states[k - 1], h.steps[k - 1]);
      assert h.states[k - 1 + 1] == h.states[k];
    }
  }
}
