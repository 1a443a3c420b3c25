/** The precomputed ancestor index of a manifest, and the downward search it replaces. */
module AncestorIndex {
  import opened Common
  import opened Graph

  /** The rows of `manifest_edges` and `manifest_nodes` of one manifest. */
  datatype Manifest = Manifest(edges: Edges, types: map<string, Option<string>>) {

    /** Nodes whose type is known and is not `source`; an unknown type satisfies no SQL comparison. */
    function NonSource(): set<string> {
      set n | n in types && types[n].Some? && types[n].value != "source"
    }

    /** Some path of at least one edge leads from `a` to `b`. */
    ghost predicate Above(a: string, b: string) {
      exists c :: (a, c) in edges && Reaches(edges, Nodes(edges), c, b)
    }

    /** The index holds `(n, s)`: a tracked ancestor, or a tracked source node itself. */
    ghost predicate Indexed(tracked: set<string>, n: string, s: string) {
      s in tracked && (Above(s, n) || (n == s && n in types && types[n] == Some("source")))
    }

    /** The non-source nodes the index lists under some key. */
    ghost function IndexedUnder(tracked: set<string>, keys: set<string>): set<string> {
      set n | n in NonSource() && exists s :: s in keys && Indexed(tracked, n, s)
    }

    /** The non-source nodes the downward search finds from the keys. */
    ghost function Downstream(keys: set<string>): set<string> {
      set n | n in NonSource() && exists s :: s in keys && Reaches(edges, Nodes(edges), s, n)
    }
  }

  type Index = set<(string, string)>

  lemma AboveStep(m: Manifest, p: string, x: string, n: string)
    requires (p, x) in m.edges && (x == n || m.Above(x, n))
    ensures m.Above(p, n)
  {
    ReachesRefl(m.edges, Nodes(m.edges), n);
    if x != n { AboveReaches(m, x, n); }
  }

  lemma AboveReaches(m: Manifest, a: string, b: string)
    requires m.Above(a, b)
    ensures Reaches(m.edges, Nodes(m.edges), a, b)
  {
    var c :| (a, c) in m.edges && Reaches(m.edges, Nodes(m.edges), c, b);
    assert (a, c).1 in Nodes(m.edges);
    ReachesRefl(m.edges, Nodes(m.edges), a);
    ReachesSnoc(m.edges, Nodes(m.edges), a, a, c);
    ReachesTransitive(m.edges, Nodes(m.edges), a, c, b);
  }

  lemma ReachesAbove(m: Manifest, a: string, b: string)
    requires Reaches(m.edges, Nodes(m.edges), a, b) && a != b
    ensures m.Above(a, b)
  {
    var p :| IsPath(m.edges, Nodes(m.edges), p) && p[0] == a && p[|p| - 1] == b;
    var q := p[1..];
    forall i | 0 < i < |q| ensures (q[i - 1], q[i]) in m.edges && q[i] in Nodes(m.edges) {
      assert p[i + 1] == q[i] && p[i + 1 - 1] == q[i - 1];
    }
    assert IsPath(m.edges, Nodes(m.edges), q);
    assert p[1] == q[0] && p[1 - 1] == a;
  }

  // ---------------------------------------------------------------------------------------------
  // The two recursive queries, as iterations over a working table. `UNION` keeps only rows not seen
  // before, so on any finite edge list, cyclic ones included, the working table runs empty.

  /** `pairs` holds `(child, parent)` for every edge, and `(n, p)` whenever it holds `(n, x)` and `p -> x`. */
  ghost predicate ClosedUpward(es: Edges, pairs: Index) {
    && (forall p, c :: (p, c) in es ==> (c, p) in pairs)
    && (forall n, x, p :: (n, x) in pairs && (p, x) in es ==> (n, p) in pairs)
  }

  /** The least set of pairs closed upward. */
  method ClimbAncestors(es: Edges, ghost bound: Index) returns (all: Index)
    requires ClosedUpward(es, bound)
    ensures ClosedUpward(es, all) && all <= bound
  {
    all := set e | e in es :: (e.1, e.0);
    var working := all;
    assert forall p, c :: (p, c) in es ==> (c, p) in all by {
      forall p, c | (p, c) in es ensures (c, p) in all { assert (c, p) == ((p, c).1, (p, c).0); }
    }
    while working != {}
      invariant forall p, c :: (p, c) in es ==> (c, p) in all
      invariant forall n, x, p :: (n, x) in all && (n, x) !in working && (p, x) in es ==> (n, p) in all
      invariant working <= all <= bound
      decreases bound - all, working
    {
      var next := Joined(es, working);
      ghost var all0 := all;
      working := next - all;
      all := all + working;
      assert working != {} ==> bound - all < bound - all0 by {
        if y :| y in working { assert y in bound - all0 && y !in bound - all; }
      }
    }
  }

  /** One step of the recursive part of the query. */
  function Joined(es: Edges, working: Index): (next: Index)
    ensures forall n, p :: (n, p) in next <==> exists x :: (n, x) in working && (p, x) in es
  {
    var next: Index := set w, e | w in working && e in es && e.1 == w.1 :: (w.0, e.0);
    assert forall n, p :: (n, p) in next <==> exists x :: (n, x) in working && (p, x) in es by {
      forall n, p ensures (n, p) in next <==> exists x :: (n, x) in working && (p, x) in es {
        if (n, p) in next {
          var w, e :| w in working && e in es && e.1 == w.1 && (n, p) == (w.0, e.0);
          assert w == (n, w.1) && e == (p, w.1);
        }
        if x :| (n, x) in working && (p, x) in es {
          assert (n, p) == ((n, x).0, (p, x).0) && (n, x).1 == (p, x).1;
        }
      }
    }
    next
  }

  /** All pairs of a node and a strict ancestor. */
  ghost function AncestorPairs(m: Manifest): Index {
    set n, a | n in Nodes(m.edges) && a in Nodes(m.edges) && m.Above(a, n) :: (n, a)
  }

  lemma AncestorPairsClosed(m: Manifest)
    ensures ClosedUpward(m.edges, AncestorPairs(m))
  {
    forall p, c | (p, c) in m.edges ensures (c, p) in AncestorPairs(m) {
      EdgeEnds(m.edges, p, c);
      AboveStep(m, p, c, c);
    }
    forall n, x, p | (n, x) in AncestorPairs(m) && (p, x) in m.edges ensures (n, p) in AncestorPairs(m) {
      EdgeEnds(m.edges, p, x);
      AboveStep(m, p, x, n);
    }
  }

  lemma EdgeEnds(es: Edges, a: string, b: string)
    requires (a, b) in es
    ensures a in Nodes(es) && b in Nodes(es)
  {
    assert (a, b).0 in Nodes(es) && (a, b).1 in Nodes(es);
  }

  /** A set of pairs closed upward holds every strict ancestor. */
  lemma ClosedUpwardHoldsAbove(m: Manifest, pairs: Index, a: string, n: string)
    requires ClosedUpward(m.edges, pairs) && m.Above(a, n)
    ensures (n, a) in pairs
  {
    var c :| (a, c) in m.edges && Reaches(m.edges, Nodes(m.edges), c, n);
    var p :| IsPath(m.edges, Nodes(m.edges), p) && p[0] == c && p[|p| - 1] == n;
    PathHolds(m.edges, Nodes(m.edges), pairs, p, 0);
    if |p| > 1 { assert (n, c) in pairs; }
  }

  lemma {:induction false} PathHolds(es: Edges, allowed: set<string>, pairs: Index, p: seq<string>, k: nat)
    requires ClosedUpward(es, pairs) && IsPath(es, allowed, p) && k < |p|
    ensures k < |p| - 1 ==> (p[|p| - 1], p[k]) in pairs
    decreases |p| - k
  {
    if k < |p| - 1 {
      assert (p[k], p[k + 1]) in es by { assert p[k + 1 - 1] == p[k] && p[k + 1] in allowed; }
      PathHolds(es, allowed, pairs, p, k + 1);
    }
  }

  lemma LeastIsAncestorPairs(m: Manifest, all: Index, n: string, s: string)
    requires ClosedUpward(m.edges, all) && all <= AncestorPairs(m)
    ensures (n, s) in all <==> m.Above(s, n)
  {
    if m.Above(s, n) { ClosedUpwardHoldsAbove(m, all, s, n); }
    if (n, s) in all { assert (n, s) in AncestorPairs(m); }
  }

  /** The ancestor pairs joined with the tracked keys, and the self references of tracked source nodes. */
  function TrackedRows(all: Index, types: map<string, Option<string>>, tracked: set<string>): (index: Index)
    ensures forall n, s :: (n, s) in index <==>
      s in tracked && ((n, s) in all || (n == s && n in types && types[n] == Some("source")))
  {
    (set x | x in all && x.1 in tracked) +
    (set n | n in types && types[n] == Some("source") && n in tracked :: (n, n))
  }

  /** Rebuilds the index: ancestors of every node, joined with the tracked keys, and sources themselves. */
  method PopulateAncestorSources(m: Manifest, tracked: set<string>) returns (index: Index)
    ensures forall n, s :: (n, s) in index <==> m.Indexed(tracked, n, s)
  {
    AncestorPairsClosed(m);
    var all := ClimbAncestors(m.edges, AncestorPairs(m));
    index := TrackedRows(all, m.types, tracked);
    forall n, s ensures (n, s) in index <==> m.Indexed(tracked, n, s) {
      LeastIsAncestorPairs(m, all, n, s);
    }
  }

  ghost predicate ClosedDownward(es: Edges, s: set<string>) {
    forall a, b :: a in s && (a, b) in es ==> b in s
  }

  /** The least set that holds the keys and is closed downward. */
  method DescendFrom(es: Edges, keys: set<string>, ghost bound: set<string>) returns (all: set<string>)
    requires keys <= bound && ClosedDownward(es, bound)
    ensures keys <= all <= bound && ClosedDownward(es, all)
  {
    all := keys;
    var working := keys;
    while working != {}
      invariant forall a, b :: a in all && a !in working && (a, b) in es ==> b in all
      invariant keys <= all && working <= all <= bound
      decreases bound - all, working
    {
      var next := ChildrenOf(es, working);
      ghost var all0 := all;
      working := next - all;
      all := all + working;
      assert working != {} ==> bound - all < bound - all0 by {
        if y :| y in working { assert y in bound - all0 && y !in bound - all; }
      }
    }
  }

  function ChildrenOf(es: Edges, working: set<string>): (next: set<string>)
    ensures forall b :: b in next <==> exists a :: a in working && (a, b) in es
  {
    var next := set e | e in es && e.0 in working :: e.1;
    assert forall b :: b in next <==> exists a :: a in working && (a, b) in es by {
      forall b ensures b in next <==> exists a :: a in working && (a, b) in es {
        if b in next {
          var e :| e in es && e.0 in working && b == e.1;
          assert e == (e.0, b);
        }
        if a :| a in working && (a, b) in es { assert (a, b).0 in working && (a, b).1 == b; }
      }
    }
    next
  }

  /** Everything some key reaches. */
  ghost function ReachedFrom(m: Manifest, keys: set<string>): set<string> {
    set n | n in keys + Nodes(m.edges) && exists s :: s in keys && Reaches(m.edges, Nodes(m.edges), s, n)
  }

  lemma ReachedFromClosed(m: Manifest, keys: set<string>)
    ensures keys <= ReachedFrom(m, keys) && ClosedDownward(m.edges, ReachedFrom(m, keys))
  {
    forall s | s in keys ensures s in ReachedFrom(m, keys) { ReachesRefl(m.edges, Nodes(m.edges), s); }
    forall a, b | a in ReachedFrom(m, keys) && (a, b) in m.edges ensures b in ReachedFrom(m, keys) {
      EdgeEnds(m.edges, a, b);
      var s :| s in keys && Reaches(m.edges, Nodes(m.edges), s, a);
      ReachesSnoc(m.edges, Nodes(m.edges), s, a, b);
    }
  }

  lemma ClosedDownwardHoldsReached(m: Manifest, keys: set<string>, all: set<string>, n: string)
    requires keys <= all && ClosedDownward(m.edges, all)
    requires exists s :: s in keys && Reaches(m.edges, Nodes(m.edges), s, n)
    ensures n in all
  {
    var s :| s in keys && Reaches(m.edges, Nodes(m.edges), s, n);
    ClosedHoldsReachable(m.edges, Nodes(m.edges), all, s, n);
  }

  /** Non-source nodes reachable from the keys, in ascending order. */
  method ListDownstream(m: Manifest, keys: set<string>) returns (r: seq<string>)
    ensures StrictlySorted(r) && forall n :: n in r <==> n in m.Downstream(keys)
  {
    if keys == {} {
      return [];
    }
    ReachedFromClosed(m, keys);
    var all := DescendFrom(m.edges, keys, ReachedFrom(m, keys));
    forall n | n in m.Downstream(keys) ensures n in all { ClosedDownwardHoldsReached(m, keys, all, n); }
    r := SortedElements(set n | n in all && n in m.NonSource());
  }

  /** The index never lists a node the search would miss. */
  lemma IndexWithinSearch(m: Manifest, tracked: set<string>, keys: set<string>)
    ensures m.IndexedUnder(tracked, keys) <= m.Downstream(keys)
  {
    forall n | n in m.IndexedUnder(tracked, keys) ensures n in m.Downstream(keys) {
      var s :| s in keys && m.Indexed(tracked, n, s);
      if m.Above(s, n) { AboveReaches(m, s, n); }
    }
  }

  /**
   * For tracked keys the two agree exactly when every key that is itself a non-source node has some key
   * above it: the search starts at the keys, the index one edge below them.
   */
  lemma IndexAgreesWithSearch(m: Manifest, tracked: set<string>, keys: set<string>)
    requires keys <= tracked
    ensures m.IndexedUnder(tracked, keys) == m.Downstream(keys) <==>
      forall k :: k in keys && k in m.NonSource() ==> exists s :: s in keys && m.Above(s, k)
  {
    IndexWithinSearch(m, tracked, keys);
    if forall k :: k in keys && k in m.NonSource() ==> exists s :: s in keys && m.Above(s, k) {
      forall n | n in m.Downstream(keys) ensures n in m.IndexedUnder(tracked, keys) {
        var s :| s in keys && Reaches(m.edges, Nodes(m.edges), s, n);
        if s != n {
          ReachesAbove(m, s, n);
          assert m.Indexed(tracked, n, s);
        } else {
          var t :| t in keys && m.Above(t, n);
          assert m.Indexed(tracked, n, t);
        }
      }
    }
    if k :| k in keys && k in m.NonSource() && !exists s :: s in keys && m.Above(s, k) {
      ReachesRefl(m.edges, Nodes(m.edges), k);
      assert k in m.Downstream(keys) && k !in m.IndexedUnder(tracked, keys);
    }
  }

  /** `k -> n`, both models, with `k` tracked: the search lists `k` itself, the index does not. */
  lemma KeyThatIsNode(k: string, n: string)
    requires k != n
    ensures var m := Manifest([(k, n)], map[k := Some("model"), n := Some("model")]);
      m.Downstream({k}) == {k, n} && m.IndexedUnder({k}, {k}) == {n}
  {
    var m := Manifest([(k, n)], map[k := Some("model"), n := Some("model")]);
    assert m.edges[0] == (k, n);
    EdgeEnds(m.edges, k, n);
    ReachesRefl(m.edges, Nodes(m.edges), k);
    ReachesSnoc(m.edges, Nodes(m.edges), k, k, n);
    ReachesRefl(m.edges, Nodes(m.edges), n);
    assert m.Above(k, n);
    assert !m.Above(k, k) by {
      if m.Above(k, k) {
        assert Reaches(m.edges, Nodes(m.edges), n, k);
        ClosedHoldsReachable(m.edges, Nodes(m.edges), {n}, n, k);
      }
    }
  }
}
