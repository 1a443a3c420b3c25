/**
 * Source watermarks as a protocol: the tables of one environment under one manifest, and one step for
 * each statement or transaction that other runs can observe. Steps of any number of runs interleave.
 */
module Watermarks {
  import opened Common
  import opened Graph
  import opened AncestorIndex

  /** The fixed part: the manifest, and the source keys tracked when its index was populated. */
  datatype Config = Config(manifest: Manifest, tracked: set<string>)

  datatype Key = Key(node: string, source: string)

  datatype StageKey = StageKey(run: nat, node: string, source: string)

  datatype LogRow = LogRow(key: Key, eventId: int, previous: Option<int>, run: nat)

  /** `loaded` holds the staged rows that some finish has loaded and not yet committed or has committed; `passed` the
      (source, event) pairs that an advance call has checked and not yet written. */
  datatype State = State(
    events: map<int, string>,
    marks: map<Key, int>,
    log: seq<LogRow>,
    staged: map<StageKey, int>,
    satisfied: map<string, int>,
    loaded: set<(StageKey, int)>,
    passed: set<(string, int)>)

  const EMPTY := State(map[], map[], [], map[], map[], {}, {})

  lemma {:induction false} ExtremesExist(s: set<int>)
    requires s != {}
    ensures exists m :: m in s && forall x :: x in s ==> m <= x
    ensures exists m :: m in s && forall x :: x in s ==> x <= m
  {
    var x := MemberOf(s);
    if s != {x} {
      var rest := s - {x};
      ExtremesExist(rest);
      var least :| least in rest && forall y :: y in rest ==> least <= y;
      var most :| most in rest && forall y :: y in rest ==> y <= most;
      var low, high := if x < least then x else least, if most < x then x else most;
      assert forall y :: y in s ==> y == x || y in rest;
      assert low in s && forall y :: y in s ==> low <= y;
      assert high in s && forall y :: y in s ==> y <= high;
    }
  }

  ghost function MinOf(s: set<int>): (m: int)
    requires s != {}
    ensures m in s && forall x :: x in s ==> m <= x
  {
    ExtremesExist(s);
    var m :| m in s && forall x :: x in s ==> m <= x;
    m
  }

  ghost function MaxOf(s: set<int>): (m: int)
    requires s != {}
    ensures m in s && forall x :: x in s ==> x <= m
  {
    ExtremesExist(s);
    var m :| m in s && forall x :: x in s ==> x <= m;
    m
  }

  function EventsOf(events: map<int, string>, s: string): set<int> {
    set e | e in events && events[e] == s
  }

  /** The newest event of a source. */
  ghost function Latest(events: map<int, string>, s: string): Option<int> {
    if EventsOf(events, s) == {} then None else Some(MaxOf(EventsOf(events, s)))
  }

  function Parents(es: Edges, n: string): (parents: set<string>)
    ensures forall p :: p in parents <==> (p, n) in es
  {
    if es == [] then {}
    else
      assert es == [es[0]] + es[1..];
      Parents(es[1..], n) + if es[0].1 == n then {es[0].0} else {}
  }

  /** The rows that enter the MIN for source `s`: parent watermarks, and the newest event of a parent source. */
  ghost function Contributions(cfg: Config, st: State, n: string, s: string): set<int> {
    var parents := Parents(cfg.manifest.edges, n);
    (set p | p in parents && Key(p, s) in st.marks :: st.marks[Key(p, s)]) +
    (if s in parents && Key(s, s) !in st.marks && Latest(st.events, s).Some? then {Latest(st.events, s).value} else {})
  }

  /** What a start of `n` stages for source `s`. */
  ghost function Candidate(cfg: Config, st: State, n: string, isSource: bool, s: string): Option<int> {
    if !exists t :: cfg.manifest.Indexed(cfg.tracked, n, t) then None
    else if isSource then if s == n then Latest(st.events, n) else None
    else if Contributions(cfg, st, n, s) == {} then None
    else Some(MinOf(Contributions(cfg, st, n, s)))
  }

  /** The sources a candidate can exist for. */
  function Sources(st: State): set<string> {
    st.events.Values + set k | k in st.marks :: k.source
  }

  ghost function Candidates(cfg: Config, st: State, n: string, isSource: bool): map<string, int> {
    map s | s in Sources(st) && Candidate(cfg, st, n, isSource, s).Some? :: Candidate(cfg, st, n, isSource, s).value
  }

  /** Upserts one staged row per candidate; rows of sources without a candidate stay. */
  function Stage(staged: map<StageKey, int>, run: nat, n: string, candidates: map<string, int>): map<StageKey, int> {
    map k | k in staged.Keys + set s | s in candidates :: StageKey(run, n, s) ::
      if k.run == run && k.node == n && k.source in candidates then candidates[k.source] else staged[k]
  }

  /** Commits one loaded row: a watermark never moves back, and each move is logged. */
  function CommitOne(st: State, run: nat, n: string, s: string, eventId: int): State {
    var key := Key(n, s);
    var previous := if key in st.marks then Some(st.marks[key]) else None;
    if previous.Some? && previous.value >= eventId then st
    else st.(marks := st.marks[key := eventId], log := st.log + [LogRow(key, eventId, previous, run)])
  }

  /** The staged rows of a run and node. */
  function RowsOf(staged: map<StageKey, int>, run: nat, n: string): set<(StageKey, int)> {
    set k | k in staged && k.run == run && k.node == n :: (k, staged[k])
  }

  function Discard(st: State, run: nat, n: string): State {
    st.(staged := map k | k in st.staged && !(k.run == run && k.node == n) :: st.staged[k])
  }

  /** The index holds some row at all; without one nothing can be called satisfied. */
  ghost predicate HasAncestors(cfg: Config) {
    exists n, s :: cfg.manifest.Indexed(cfg.tracked, n, s)
  }

  /** Every indexed non-source node under `s` has a watermark of at least `e`. */
  ghost predicate AllReached(cfg: Config, st: State, s: string, e: int) {
    forall n :: n in cfg.manifest.NonSource() && cfg.manifest.Indexed(cfg.tracked, n, s) ==>
      Key(n, s) in st.marks && e <= st.marks[Key(n, s)]
  }

  /** The guarded upsert of the pointer. */
  function AdvancePointer(st: State, s: string, e: int): State {
    if s in st.satisfied && st.satisfied[s] >= e then st
    else st.(satisfied := st.satisfied[s := e])
  }

  /** The events of a source that every indexed non-source node below it has reached. */
  ghost function ReachedEvents(cfg: Config, st: State, s: string): set<int> {
    set e | e in EventsOf(st.events, s) && HasAncestors(cfg) && AllReached(cfg, st, s, e)
  }

  /** The events of the keys that lie beyond their pointer. */
  function Beyond(events: map<int, string>, satisfied: map<string, int>, keys: set<string>): set<int> {
    set e | e in events && events[e] in keys && (events[e] !in satisfied || e > satisfied[events[e]])
  }

  /** One pointer after an advance call: at the newest of the reached events the call went over, or as it was. */
  ghost predicate AdvancedAt(reached: set<int>, before: map<string, int>, after: map<string, int>, s: string) {
    if reached == {} then (s in after <==> s in before) && (s in before ==> after[s] == before[s])
    else s in after && after[s] in reached && forall e :: e in reached ==> e <= after[s]
  }

  /** `after` is what one advance call over `rows` leaves. */
  ghost predicate AdvancedOver(cfg: Config, st: State, rows: set<int>, after: map<string, int>) {
    forall s :: AdvancedAt(ReachedEvents(cfg, st, s) * rows, st.satisfied, after, s)
  }

  /** The pointers that an undisturbed advance call over `rows` leaves. */
  ghost function Advanced(cfg: Config, st: State, rows: set<int>): map<string, int> {
    map s | s in st.satisfied.Keys + st.events.Values &&
      (s in st.satisfied || ReachedEvents(cfg, st, s) * rows != {}) ::
      if ReachedEvents(cfg, st, s) * rows != {} then MaxOf(ReachedEvents(cfg, st, s) * rows) else st.satisfied[s]
  }

  /** An advance call has exactly one outcome. */
  lemma AdvancedOverIff(cfg: Config, st: State, rows: set<int>, after: map<string, int>)
    ensures AdvancedOver(cfg, st, rows, after) <==> after == Advanced(cfg, st, rows)
  {
    var it := Advanced(cfg, st, rows);
    forall s | ReachedEvents(cfg, st, s) * rows != {} ensures s in it {
      var e := MemberOf(ReachedEvents(cfg, st, s) * rows);
      assert st.events[e] in st.events.Values;
    }
    if AdvancedOver(cfg, st, rows, after) {
      forall s ensures s in after <==> s in it
        ensures s in after ==> after[s] == it[s]
      {
        assert AdvancedAt(ReachedEvents(cfg, st, s) * rows, st.satisfied, after, s);
      }
    }
  }

  /**
   * A start carries the candidate rows its queries returned. A finish loads the staged rows once, and commits what it
   * has loaded, whatever happens to the staged rows meanwhile. `Check` is a check that succeeded.
   */
  datatype Step =
    | NewEvent(id: int, source: string)
    | Start(run: nat, node: string, isSource: bool, candidates: map<string, int>)
    | Load(run: nat, node: string)
    | Commit(run: nat, node: string, source: string, event: int)
    | Finished(run: nat, node: string)
    | Check(source: string, event: int)
    | Advance(source: string, event: int)

  /** When a step can be taken, and what its queries return. */
  ghost predicate Enabled(cfg: Config, st: State, step: Step) {
    match step
    case NewEvent(id, source) => source in cfg.tracked && id !in st.events
    case Start(_, n, isSource, candidates) => candidates == Candidates(cfg, st, n, isSource)
    case Commit(run, n, s, e) => (StageKey(run, n, s), e) in st.loaded
    case Check(s, e) => e in EventsOf(st.events, s) && HasAncestors(cfg) && AllReached(cfg, st, s, e)
    case Advance(s, e) => (s, e) in st.passed
    case _ => true
  }

  function Apply(st: State, step: Step): State {
    match step
    case NewEvent(id, source) => st.(events := st.events[id := source])
    case Start(run, n, _, candidates) => st.(staged := Stage(st.staged, run, n, candidates))
    case Load(run, n) => st.(loaded := st.loaded + RowsOf(st.staged, run, n))
    case Commit(run, n, s, e) => CommitOne(st, run, n, s, e)
    case Finished(run, n) => Discard(st, run, n)
    case Check(s, e) => st.(passed := st.passed + {(s, e)})
    case Advance(s, e) => AdvancePointer(st, s, e)
  }

  /** A finite execution: the steps of all runs as they interleave, and the states between them. */
  datatype Execution = Execution(steps: seq<Step>, states: seq<State>)

  ghost predicate Steps(h: Execution) {
    && |h.states| == |h.steps| + 1
    && h.states[0] == EMPTY
    && forall k :: 0 <= k < |h.steps| ==> h.states[k + 1] == Apply(h.states[k], h.steps[k])
  }

  ghost predicate Runs(cfg: Config, h: Execution) {
    Steps(h) && forall k :: 0 <= k < |h.steps| ==> Enabled(cfg, h.states[k], h.steps[k])
  }

  // ---------------------------------------------------------------------------------------------
  // What every step keeps

  /** Every id a table holds is a recorded event of the row's source. */
  ghost predicate Recorded(st: State) {
    && (forall k :: k in st.marks ==> st.marks[k] in EventsOf(st.events, k.source))
    && (forall k :: k in st.staged ==> st.staged[k] in EventsOf(st.events, k.source))
    && (forall x :: x in st.loaded ==> x.1 in EventsOf(st.events, x.0.source))
    && (forall s :: s in st.satisfied ==> st.satisfied[s] in EventsOf(st.events, s))
    && (forall x :: x in st.passed ==> x.1 in EventsOf(st.events, x.0))
  }

  lemma NewEventKeeps(events: map<int, string>, id: int, source: string, s: string)
    requires id !in events
    ensures EventsOf(events, s) <= EventsOf(events[id := source], s)
  {
  }

  lemma CandidatesRecorded(cfg: Config, st: State, n: string, isSource: bool, s: string)
    requires Recorded(st) && s in Candidates(cfg, st, n, isSource)
    ensures Candidates(cfg, st, n, isSource)[s] in EventsOf(st.events, s)
  {
  }

  lemma RecordedKept(cfg: Config, st: State, step: Step)
    requires Recorded(st) && Enabled(cfg, st, step)
    ensures Recorded(Apply(st, step))
  {
    var st' := Apply(st, step);
    match step
    case NewEvent(id, source) =>
      forall s ensures EventsOf(st.events, s) <= EventsOf(st'.events, s) { NewEventKeeps(st.events, id, source, s); }
    case Start(run, n, isSource, candidates) =>
      forall s | s in candidates ensures candidates[s] in EventsOf(st.events, s) {
        CandidatesRecorded(cfg, st, n, isSource, s);
      }
    case _ =>
  }

  lemma {:induction false} AlwaysRecorded(cfg: Config, h: Execution, k: nat)
    requires Runs(cfg, h) && k <= |h.steps|
    ensures Recorded(h.states[k])
  {
    if k > 0 {
      AlwaysRecorded(cfg, h, k - 1);
      RecordedKept(cfg, h.states[k - 1], h.steps[k - 1]);
      assert h.states[k - 1 + 1] == h.states[k];
    }
  }

  /** Nothing recorded is lost, and watermarks and pointers only move forward. */
  ghost predicate Forward(a: State, b: State) {
    && (forall e :: e in a.events ==> e in b.events && b.events[e] == a.events[e])
    && (forall k :: k in a.marks ==> k in b.marks && a.marks[k] <= b.marks[k])
    && (forall s :: s in a.satisfied ==> s in b.satisfied && a.satisfied[s] <= b.satisfied[s])
    && a.log <= b.log
  }

  lemma StepForward(cfg: Config, st: State, step: Step)
    requires Enabled(cfg, st, step)
    ensures Forward(st, Apply(st, step))
  {
  }

  /** Between any two points of an execution. */
  lemma {:induction false} ExecutionForward(cfg: Config, h: Execution, i: nat, k: nat)
    requires Runs(cfg, h) && i <= k <= |h.steps|
    ensures Forward(h.states[i], h.states[k])
  {
    if i < k {
      ExecutionForward(cfg, h, i, k - 1);
      StepForward(cfg, h.states[k - 1], h.steps[k - 1]);
      assert h.states[k - 1 + 1] == h.states[k];
    }
  }
}
