/** The code-change planner: which nodes of a target manifest are stale against live node state. */
module Planner {
  import opened Common
  import opened Graph

  /** A row of `manifest_nodes`, as planning loads it. */
  datatype ManifestNode = ManifestNode(uniqueId: string, resourceType: Option<string>, checksum: Option<string>)

  /** The live state of a node; `lastSuccessAt` is a timestamp. */
  datatype NodeState = NodeState(checksum: Option<string>, lastSuccessAt: Option<int>)

  type Checksums = map<string, Option<string>>

  type LiveState = map<string, NodeState>

  /** What stays fixed while a code change is reconciled: the diff and the target graph. */
  datatype Problem = Problem(modified: set<string>, target: Checksums, edges: Edges) {

    ghost predicate Valid() {
      modified <= target.Keys && Acyclic(edges)
    }

    /** The target nodes downstream of a modified node, the node itself included. */
    ghost function Candidates(): set<string> {
      set n | n in target.Keys && exists m :: m in modified && Reaches(edges, target.Keys, m, n)
    }

    /** The modified nodes that are upstream of `n` or are `n`. */
    ghost function Roots(n: string): set<string> {
      set m | m in modified && Reaches(edges, target.Keys, m, n)
    }

    /** The node has its target checksum and has succeeded. */
    predicate Reconciled(live: LiveState, n: string)
      requires n in target
    {
      ChecksumOf(live, n) == target[n] && SuccessOf(live, n).Some?
    }

    /** A modified root of `n` is unreconciled, or succeeded after `n` last did. */
    ghost predicate Outdated(live: LiveState, n: string)
      requires Valid()
    {
      exists m :: m in Roots(n) &&
        (!Reconciled(live, m) || SuccessOf(live, n).None? || SuccessOf(live, n).value < SuccessOf(live, m).value)
    }

    ghost predicate Stale(live: LiveState, n: string)
      requires Valid() && n in target
    {
      ChecksumOf(live, n) != target[n] || Outdated(live, n)
    }

    /** The nodes a plan must run. */
    ghost function Selection(live: LiveState): set<string>
      requires Valid()
    {
      set n | n in Candidates() && Stale(live, n)
    }
  }

  function ChecksumOf(live: LiveState, n: string): Option<string> {
    if n in live then live[n].checksum else None
  }

  function SuccessOf(live: LiveState, n: string): Option<int> {
    if n in live then live[n].lastSuccessAt else None
  }

  predicate IsBuildPlannable(resourceType: Option<string>) {
    resourceType.Some? && resourceType.value in {"model", "seed", "snapshot", "test", "unit_test"}
  }

  /** Collecting rows into a map: the last row of an identifier wins. */
  function ChecksumsById(nodes: seq<ManifestNode>): Checksums {
    if nodes == [] then map[]
    else ChecksumsById(nodes[..|nodes| - 1])[nodes[|nodes| - 1].uniqueId := nodes[|nodes| - 1].checksum]
  }

  lemma {:induction false} ChecksumsByIdKeys(nodes: seq<ManifestNode>)
    ensures ChecksumsById(nodes).Keys == set n | n in nodes :: n.uniqueId
  {
    if nodes != [] {
      var front, last := nodes[..|nodes| - 1], nodes[|nodes| - 1];
      ChecksumsByIdKeys(front);
      assert nodes == front + [last];
    }
  }

  /** The checksum of a row that may be absent, absent rows counting as rows without checksum. */
  function Flattened(checksums: Checksums, n: string): Option<string> {
    if n in checksums then checksums[n] else None
  }

  /** The plannable target nodes whose checksum differs from the baseline's. */
  function DirectlyModified(baseline: seq<ManifestNode>, target: seq<ManifestNode>): set<string> {
    var checksums := ChecksumsById(baseline);
    set n | n in target && IsBuildPlannable(n.resourceType) && Flattened(checksums, n.uniqueId) != n.checksum
      :: n.uniqueId
  }

  function ProblemOf(baseline: seq<ManifestNode>, target: seq<ManifestNode>, edges: Edges): Problem {
    Problem(DirectlyModified(baseline, target), ChecksumsById(target), edges)
  }

  lemma ProblemOfValid(baseline: seq<ManifestNode>, target: seq<ManifestNode>, edges: Edges)
    requires Acyclic(edges)
    ensures ProblemOf(baseline, target, edges).Valid()
  {
    ChecksumsByIdKeys(target);
  }

  /** Row `i` is the last one of its identifier. */
  ghost predicate IsLastRow(rows: seq<ManifestNode>, i: int) {
    0 <= i < |rows| && forall j :: i < j < |rows| ==> rows[j].uniqueId != rows[i].uniqueId
  }

  /** The baseline has another checksum for the row's identifier, where a missing row counts as one without. */
  ghost predicate ChangedFrom(baseline: seq<ManifestNode>, row: ManifestNode) {
    && (forall j :: IsLastRow(baseline, j) && baseline[j].uniqueId == row.uniqueId ==>
          baseline[j].checksum != row.checksum)
    && ((forall b :: b in baseline ==> b.uniqueId != row.uniqueId) ==> row.checksum.Some?)
  }

  /** The live state has another checksum than the row, where a missing state counts as one without. */
  ghost predicate DiffersFrom(live: LiveState, row: ManifestNode) {
    if row.uniqueId in live then live[row.uniqueId].checksum != row.checksum else row.checksum.Some?
  }

  /** Of rows with the same identifier the last one counts. */
  lemma {:induction false} LastRowCounts(rows: seq<ManifestNode>, i: int)
    requires IsLastRow(rows, i)
    ensures rows[i].uniqueId in ChecksumsById(rows) && ChecksumsById(rows)[rows[i].uniqueId] == rows[i].checksum
  {
    if i < |rows| - 1 { LastRowCounts(rows[..|rows| - 1], i); }
  }

  lemma {:induction false} LastRowExists(rows: seq<ManifestNode>, n: string) returns (i: nat)
    requires exists row :: row in rows && row.uniqueId == n
    ensures IsLastRow(rows, i) && rows[i].uniqueId == n
  {
    i := |rows| - 1;
    if rows[i].uniqueId != n {
      assert rows == rows[..i] + [rows[i]];
      i := LastRowExists(rows[..i], n);
    }
  }

  /** A node is modified exactly when a target row of it can be built and its checksum differs from the baseline's. */
  lemma ModifiedIff(baseline: seq<ManifestNode>, target: seq<ManifestNode>, edges: Edges, n: string)
    ensures n in ProblemOf(baseline, target, edges).modified <==>
      exists row :: row in target && row.uniqueId == n && ChangedFrom(baseline, row) &&
        row.resourceType in {Some("model"), Some("seed"), Some("snapshot"), Some("test"), Some("unit_test")}
  {
    ChecksumsByIdKeys(baseline);
    forall row | row in target && row.uniqueId == n
      ensures ChangedFrom(baseline, row) <==> Flattened(ChecksumsById(baseline), n) != row.checksum
    {
      if exists b :: b in baseline && b.uniqueId == n {
        var i := LastRowExists(baseline, n);
        LastRowCounts(baseline, i);
      }
      forall j | IsLastRow(baseline, j) && baseline[j].uniqueId == n
        ensures Flattened(ChecksumsById(baseline), n) == baseline[j].checksum
      {
        LastRowCounts(baseline, j);
      }
    }
  }

  /** The target's checksum of a node is that of its last row. */
  lemma TargetIsLastRow(baseline: seq<ManifestNode>, target: seq<ManifestNode>, edges: Edges, i: int)
    requires IsLastRow(target, i)
    ensures var p := ProblemOf(baseline, target, edges);
      target[i].uniqueId in p.target && p.target[target[i].uniqueId] == target[i].checksum
  {
    LastRowCounts(target, i);
  }

  /** The row can be built, has changed, and is not what is live. */
  ghost predicate MustRun(baseline: seq<ManifestNode>, row: ManifestNode, live: LiveState) {
    && row.resourceType in {Some("model"), Some("seed"), Some("snapshot"), Some("test"), Some("unit_test")}
    && ChangedFrom(baseline, row) && DiffersFrom(live, row)
  }

  /** A changed node that can be built, and that does not run in its target version, must run. */
  lemma ChangedIsSelected(baseline: seq<ManifestNode>, target: seq<ManifestNode>, edges: Edges, live: LiveState, i: int)
    requires Acyclic(edges) && IsLastRow(target, i) && MustRun(baseline, target[i], live)
    ensures ProblemOf(baseline, target, edges).Valid()
    ensures target[i].uniqueId in ProblemOf(baseline, target, edges).Selection(live)
  {
    ProblemOfValid(baseline, target, edges);
    ModifiedIff(baseline, target, edges, target[i].uniqueId);
    assert target[i] in target;
    TargetIsLastRow(baseline, target, edges, i);
    ReachesRefl(edges, ChecksumsById(target).Keys, target[i].uniqueId);
  }

  // ---------------------------------------------------------------------------------------------
  // Requirements: what a node's modified ancestors ask of it

  datatype Requirement = Requirement(hasUnreconciled: bool, latestSuccessAt: Option<int>)

  function LaterOf(a: Option<int>, b: Option<int>): Option<int> {
    match (a, b)
    case (Some(x), Some(y)) => Some(if x < y then y else x)
    case (Some(_), None) => a
    case (None, _) => b
  }

  function Merge(a: Requirement, b: Requirement): Requirement {
    Requirement(a.hasUnreconciled || b.hasUnreconciled, LaterOf(a.latestSuccessAt, b.latestSuccessAt))
  }

  /** `r` says whether a node of `roots` is unreconciled, and the newest success of the others. */
  ghost predicate Summarises(p: Problem, live: LiveState, r: Requirement, roots: set<string>)
    requires roots <= p.target.Keys
  {
    && (r.hasUnreconciled <==> exists m :: m in roots && !p.Reconciled(live, m))
    && (r.latestSuccessAt.None? ==> forall m :: m in roots ==> !p.Reconciled(live, m))
    && (r.latestSuccessAt.Some? ==>
          && (exists m :: m in roots && p.Reconciled(live, m) && SuccessOf(live, m) == r.latestSuccessAt)
          && (forall m :: m in roots && p.Reconciled(live, m) ==>
                SuccessOf(live, m).value <= r.latestSuccessAt.value))
  }

  lemma SummaryOfUnion(p: Problem, live: LiveState, r: Requirement, s: Requirement, a: set<string>, b: set<string>)
    requires a <= p.target.Keys && b <= p.target.Keys
    requires Summarises(p, live, r, a) && Summarises(p, live, s, b)
    ensures Summarises(p, live, Merge(r, s), a + b)
  {
    var t := Merge(r, s);
    if r.hasUnreconciled {
      var m :| m in a && !p.Reconciled(live, m);
      assert m in a + b;
    }
    if s.hasUnreconciled {
      var m :| m in b && !p.Reconciled(live, m);
      assert m in a + b;
    }
    if r.latestSuccessAt.Some? && t.latestSuccessAt == r.latestSuccessAt {
      var m :| m in a && p.Reconciled(live, m) && SuccessOf(live, m) == r.latestSuccessAt;
      assert m in a + b;
    }
    if s.latestSuccessAt.Some? && t.latestSuccessAt == s.latestSuccessAt {
      var m :| m in b && p.Reconciled(live, m) && SuccessOf(live, m) == s.latestSuccessAt;
      assert m in a + b;
    }
  }

  /** A set of roots has one summary: the result does not depend on the order of the visits. */
  lemma SummaryUnique(p: Problem, live: LiveState, r: Requirement, s: Requirement, roots: set<string>)
    requires roots <= p.target.Keys
    requires Summarises(p, live, r, roots) && Summarises(p, live, s, roots)
    ensures r == s
  {
  }

  /** What a parent contributes: nothing unless it is a candidate. */
  ghost function RootsThrough(p: Problem, parents: seq<string>): set<string> {
    if parents == [] then {}
    else
      var last := parents[|parents| - 1];
      RootsThrough(p, parents[..|parents| - 1]) + (if last in p.Candidates() then p.Roots(last) else {})
  }

  lemma {:induction false} InRootsThrough(p: Problem, parents: seq<string>, m: string)
    ensures m in RootsThrough(p, parents) <==>
      exists q :: q in parents && q in p.Candidates() && m in p.Roots(q)
  {
    if parents != [] {
      var front, last := parents[..|parents| - 1], parents[|parents| - 1];
      InRootsThrough(p, front, m);
      assert parents == front + [last];
    }
  }

  /** The roots of a candidate are itself, if modified, and the roots of its candidate parents. */
  lemma RootsDecompose(p: Problem, n: string, parents: seq<string>)
    requires p.Valid() && n in p.Candidates()
    requires forall q :: q in parents <==> (q, n) in p.edges
    ensures p.Roots(n) == (if n in p.modified then {n} else {}) + RootsThrough(p, parents)
  {
    ReachesRefl(p.edges, p.target.Keys, n);
    forall m | m in p.Roots(n) && m != n ensures m in RootsThrough(p, parents) {
      var q := ReachesInvert(p.edges, p.target.Keys, m, n);
      if q != m {
        var _ := ReachesInvert(p.edges, p.target.Keys, m, q);
      }
      assert q in p.Candidates() && m in p.Roots(q);
      InRootsThrough(p, parents, m);
    }
    forall m | m in RootsThrough(p, parents) ensures m in p.Roots(n) {
      InRootsThrough(p, parents, m);
      var q :| q in parents && q in p.Candidates() && m in p.Roots(q);
      ReachesSnoc(p.edges, p.target.Keys, m, q, n);
    }
  }

  /** `r` summarises `n` itself, if modified, and the roots of the listed parents. */
  ghost predicate SummarisesThrough(p: Problem, live: LiveState, r: Requirement, n: string, parents: seq<string>) {
    var roots := (if n in p.modified then {n} else {}) + RootsThrough(p, parents);
    roots <= p.target.Keys && Summarises(p, live, r, roots)
  }

  /** A parent that is no candidate asks nothing; merging a candidate's summary accounts for it. */
  lemma ThroughOneMore(p: Problem, live: LiveState, r: Requirement, n: string, parents: seq<string>, i: nat,
                       required: Requirement)
    requires p.Valid() && i < |parents| && SummarisesThrough(p, live, r, n, parents[..i])
    requires parents[i] in p.Candidates() ==> Summarises(p, live, required, p.Roots(parents[i]))
    requires parents[i] !in p.Candidates() ==> required == Requirement(false, None)
    ensures SummarisesThrough(p, live, Merge(r, required), n, parents[..i + 1])
    ensures parents[i] !in p.Candidates() ==> Merge(r, required) == r
  {
    var own := if n in p.modified then {n} else {};
    var more := if parents[i] in p.Candidates() then p.Roots(parents[i]) else {};
    assert parents[..i + 1][..i] == parents[..i];
    assert RootsThrough(p, parents[..i + 1]) == RootsThrough(p, parents[..i]) + more;
    SummaryOfUnion(p, live, r, required, own + RootsThrough(p, parents[..i]), more);
    assert own + RootsThrough(p, parents[..i + 1]) == own + RootsThrough(p, parents[..i]) + more;
  }

  /** The planner's staleness test, read off a requirement, is staleness. */
  lemma RequirementDecidesStale(p: Problem, live: LiveState, n: string, r: Requirement)
    requires p.Valid() && n in p.target && Summarises(p, live, r, p.Roots(n))
    ensures p.Stale(live, n) <==>
      || ChecksumOf(live, n) != p.target[n]
      || r.hasUnreconciled
      || (r.latestSuccessAt.Some? &&
          (SuccessOf(live, n).None? || SuccessOf(live, n).value < r.latestSuccessAt.value))
  {
    if r.latestSuccessAt.Some? {
      var m :| m in p.Roots(n) && p.Reconciled(live, m) && SuccessOf(live, m) == r.latestSuccessAt;
    }
  }

  /** The memoised recursion over parents, with the maps it reads and the memo table it fills. */
  class AncestorPass {
    ghost const problem: Problem
    const live: LiveState
    const target: Checksums
    const modified: set<string>
    const candidate: set<string>
    const parentMap: map<string, seq<string>>
    var memo: map<string, Requirement>

    ghost predicate Inputs() {
      && problem.Valid()
      && modified == problem.modified && target == problem.target && candidate == problem.Candidates()
      && (forall q, n :: n in parentMap && q in parentMap[n] ==> (q, n) in problem.edges)
      && (forall q, n :: (q, n) in problem.edges ==> n in parentMap && q in parentMap[n])
    }

    /** Every memo entry is the summary of its node's roots. */
    ghost predicate Sound()
      reads this
    {
      && Inputs()
      && forall n :: n in memo ==>
           n in candidate && Summarises(problem, live, memo[n], problem.Roots(n))
    }

    constructor (ghost p: Problem, live: LiveState, target: Checksums, modified: set<string>,
                 candidate: set<string>, parentMap: map<string, seq<string>>)
      requires p.Valid() && modified == p.modified && target == p.target && candidate == p.Candidates()
      requires forall q, n :: n in parentMap && q in parentMap[n] ==> (q, n) in p.edges
      requires forall q, n :: (q, n) in p.edges ==> n in parentMap && q in parentMap[n]
      ensures Sound() && problem == p && this.live == live
    {
      problem := p;
      this.live, this.target, this.modified := live, target, modified;
      this.candidate, this.parentMap, memo := candidate, parentMap, map[];
    }

    /** What the node itself asks when it is directly modified. */
    method OwnRequirement(n: string) returns (r: Requirement)
      requires Sound() && n in candidate
      ensures Summarises(problem, live, r, if n in modified then {n} else {})
    {
      r := Requirement(false, None);
      if n in modified {
        var targetChecksum := Flattened(target, n);
        var reconciled := ChecksumOf(live, n) == targetChecksum && SuccessOf(live, n).Some?;
        if reconciled {
          r := r.(latestSuccessAt := SuccessOf(live, n));
        } else {
          r := r.(hasUnreconciled := true);
        }
      }
    }

    /** Terminates from any sound memo with the summary of all modified ancestors and the node itself. */
    method Compute(n: string) returns (r: Requirement)
      requires Sound() && n in candidate
      modifies this
      ensures Sound()
      ensures Summarises(problem, live, r, problem.Roots(n))
      ensures n in memo && memo[n] == r && old(memo.Keys) <= memo.Keys
      decreases Ancestors(problem.edges, n)
    {
      if n in memo {
        return memo[n];
      }
      r := OwnRequirement(n);
      var parents := if n in parentMap then parentMap[n] else [];
      for i := 0 to |parents|
        invariant Sound() && old(memo.Keys) <= memo.Keys
        invariant SummarisesThrough(problem, live, r, n, parents[..i])
      {
        var parent := parents[i];
        if parent !in candidate {
          ThroughOneMore(problem, live, r, n, parents, i, Requirement(false, None));
          continue;
        }
        AncestorsShrink(problem.edges, parent, n);
        var required := Compute(parent);
        ThroughOneMore(problem, live, r, n, parents, i, required);
        r := Merge(r, required);
      }
      assert parents[..|parents|] == parents;
      RootsDecompose(problem, n, parents);
      memo := memo[n := r];
    }

    /** The planner's test of one candidate. */
    method IsStale(n: string) returns (stale: bool)
      requires Sound() && n in candidate
      modifies this
      ensures Sound()
      ensures stale <==> problem.Stale(live, n)
    {
      var requirement := Compute(n);
      RequirementDecidesStale(problem, live, n, requirement);
      var success := SuccessOf(live, n);
      stale :=
        || ChecksumOf(live, n) != target[n]
        || requirement.hasUnreconciled
        || (requirement.latestSuccessAt.Some? &&
            (success.None? || success.value < requirement.latestSuccessAt.value));
    }
  }

  // ---------------------------------------------------------------------------------------------
  // Downstream closure and selection

  /** `children[p]` lists exactly the children of `p` (and absence means none), and dually for parents. */
  ghost predicate IndexesEdges(edges: Edges, children: map<string, seq<string>>, parents: map<string, seq<string>>) {
    && (forall a, b :: a in children && b in children[a] ==> (a, b) in edges)
    && (forall a, b :: (a, b) in edges ==> a in children && b in children[a])
    && (forall a, b :: b in parents && a in parents[b] ==> (a, b) in edges)
    && (forall a, b :: (a, b) in edges ==> b in parents && a in parents[b])
  }

  function Entry(m: map<string, seq<string>>, k: string): seq<string> {
    if k in m then m[k] else []
  }

  method IndexEdges(edges: Edges) returns (children: map<string, seq<string>>, parents: map<string, seq<string>>)
    ensures IndexesEdges(edges, children, parents)
  {
    children, parents := map[], map[];
    for i := 0 to |edges|
      invariant IndexesEdges(edges[..i], children, parents)
    {
      var (parent, child) := edges[i];
      assert edges[..i + 1] == edges[..i] + [edges[i]];
      children := children[parent := Entry(children, parent) + [child]];
      parents := parents[child := Entry(parents, child) + [parent]];
    }
    assert edges[..|edges|] == edges;
  }

  /** Inserts the unseen target nodes of `next` and pushes each of them. */
  method PushUnseen(next: seq<string>, targetIds: set<string>, candidate0: set<string>, stack0: seq<string>)
    returns (candidate: set<string>, stack: seq<string>)
    ensures forall b :: b in candidate <==> b in candidate0 || (b in next && b in targetIds)
    ensures forall b :: b in stack <==> b in stack0 || b in candidate - candidate0
    ensures candidate == candidate0 ==> stack == stack0
  {
    candidate, stack := candidate0, stack0;
    for i := 0 to |next|
      invariant forall b :: b in candidate <==> b in candidate0 || (b in next[..i] && b in targetIds)
      invariant forall b :: b in stack <==> b in stack0 || b in candidate - candidate0
      invariant candidate == candidate0 ==> stack == stack0
    {
      var child := next[i];
      assert next[..i + 1] == next[..i] + [child];
      if child in targetIds && child !in candidate {
        candidate := candidate + {child};
        stack := stack + [child];
      }
    }
    assert next[..|next|] == next;
  }

  /** Every candidate is downstream of a modification, and all targets below a candidate off the stack are in. */
  ghost predicate Explored(p: Problem, candidate: set<string>, stack: seq<string>) {
    && p.modified <= candidate <= p.Candidates()
    && (forall a :: a in stack ==> a in candidate)
    && (forall a, b :: a in candidate && a !in stack && (a, b) in p.edges && b in p.target.Keys ==> b in candidate)
  }

  lemma ExploredStep(p: Problem, candidate0: set<string>, stack0: seq<string>, parent: string,
                     candidate: set<string>, stack: seq<string>)
    requires Explored(p, candidate0, stack0 + [parent])
    requires forall b :: b in candidate <==> b in candidate0 || ((parent, b) in p.edges && b in p.target.Keys)
    requires forall b :: b in stack <==> b in stack0 || b in candidate - candidate0
    ensures Explored(p, candidate, stack)
  {
    assert parent in stack0 + [parent];
    forall b | b in candidate ensures b in p.Candidates() {
      if b !in candidate0 { ReachableStep(p, parent, b); }
    }
    forall a, b | a in candidate && a !in stack && (a, b) in p.edges && b in p.target.Keys ensures b in candidate {
      if a != parent { assert a !in stack0 + [parent]; }
    }
  }

  lemma ExploredAll(p: Problem, candidate: set<string>)
    requires Explored(p, candidate, [])
    ensures candidate == p.Candidates()
  {
    forall n | n in p.Candidates() ensures n in candidate {
      var m :| m in p.modified && Reaches(p.edges, p.target.Keys, m, n);
      ClosedHoldsReachable(p.edges, p.target.Keys, candidate, m, n);
    }
  }

  /** Pops a node, pushes its unseen target children, until the stack is empty. */
  method DownstreamClosure(ghost p: Problem, modified: set<string>, targetIds: set<string>,
                           children: map<string, seq<string>>)
    returns (candidate: set<string>)
    requires p.Valid() && modified == p.modified && targetIds == p.target.Keys
    requires forall a, b :: a in children && b in children[a] ==> (a, b) in p.edges
    requires forall a, b :: (a, b) in p.edges ==> a in children && b in children[a]
    ensures candidate == p.Candidates()
  {
    candidate := modified;
    var stack := SortedElements(modified);
    forall m | m in modified ensures m in p.Candidates() { ReachesRefl(p.edges, targetIds, m); }
    while |stack| > 0
      invariant Explored(p, candidate, stack)
      decreases targetIds - candidate, |stack|
    {
      ghost var candidate0 := candidate;
      var parent, rest := stack[|stack| - 1], stack[..|stack| - 1];
      assert stack == rest + [parent];
      candidate, stack := PushUnseen(Entry(children, parent), targetIds, candidate, rest);
      ExploredStep(p, candidate0, rest, parent, candidate, stack);
      assert targetIds - candidate <= targetIds - candidate0;
    }
    ExploredAll(p, candidate);
  }

  lemma ReachableStep(p: Problem, parent: string, child: string)
    requires parent in p.Candidates() && (parent, child) in p.edges && child in p.target.Keys
    ensures child in p.Candidates()
  {
    var m :| m in p.modified && Reaches(p.edges, p.target.Keys, m, parent);
    ReachesSnoc(p.edges, p.target.Keys, m, parent, child);
  }

  /** Filters the candidates in ascending order; the list is then sorted already. */
  method SelectStale(ghost p: Problem, ghost live: LiveState, candidate: set<string>, pass: AncestorPass)
    returns (selected: seq<string>)
    requires pass.Sound() && pass.problem == p && pass.live == live && candidate == p.Candidates()
    modifies pass
    ensures p.Valid() && StrictlySorted(selected)
    ensures forall n :: n in selected <==> n in p.Selection(live)
  {
    var ordered := SortedElements(candidate);
    selected := [];
    for i := 0 to |ordered|
      invariant pass.Sound() && pass.problem == p && pass.live == live
      invariant StrictlySorted(selected)
      invariant forall n :: n in selected <==> n in ordered[..i] && n in p.target && p.Stale(live, n)
    {
      var n := ordered[i];
      var stale := pass.IsStale(n);
      assert ordered[..i + 1] == ordered[..i] + [n];
      if stale {
        AppendSorted(selected, ordered, i);
        selected := selected + [n];
      }
    }
    assert ordered[..|ordered|] == ordered;
  }

  /** The whole planner: a strictly sorted list of exactly the stale nodes downstream of a modification. */
  method PlanCodeChange(baseline: seq<ManifestNode>, targetNodes: seq<ManifestNode>, edges: Edges, live: LiveState)
    returns (selected: seq<string>)
    requires Acyclic(edges)
    ensures ProblemOf(baseline, targetNodes, edges).Valid()
    ensures StrictlySorted(selected)
    ensures forall n :: n in selected <==> n in ProblemOf(baseline, targetNodes, edges).Selection(live)
    ensures forall i :: IsLastRow(targetNodes, i) && MustRun(baseline, targetNodes[i], live) ==>
      targetNodes[i].uniqueId in selected
  {
    ghost var p := ProblemOf(baseline, targetNodes, edges);
    ProblemOfValid(baseline, targetNodes, edges);
    forall i | IsLastRow(targetNodes, i) && MustRun(baseline, targetNodes[i], live)
      ensures targetNodes[i].uniqueId in p.Selection(live)
    {
      ChangedIsSelected(baseline, targetNodes, edges, live, i);
    }
    var target := ChecksumsById(targetNodes);
    var modified := DirectlyModified(baseline, targetNodes);
    if modified == {} {
      return [];
    }
    var children, parents := IndexEdges(edges);
    var candidate := DownstreamClosure(p, modified, target.Keys, children);
    var pass := new AncestorPass(p, live, target, modified, candidate, parents);
    selected := SelectStale(p, live, candidate, pass);
  }

  lemma AppendSorted(selected: seq<string>, ordered: seq<string>, i: nat)
    requires StrictlySorted(selected) && StrictlySorted(ordered) && i < |ordered|
    requires forall n :: n in selected ==> n in ordered[..i]
    ensures StrictlySorted(selected + [ordered[i]])
  {
    forall j | 0 <= j < |selected| ensures StrLess(selected[j], ordered[i]) {
      assert selected[j] in ordered[..i];
    }
  }
}
