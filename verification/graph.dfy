/** Directed graphs given as finite edge lists `(parent, child)`, as `manifest_edges` stores them. */
module Graph {

  type Edges = seq<(string, string)>

  /** Every edge of the path is in `es`, and every node after the first is in `allowed`. */
  ghost predicate IsPath(es: Edges, allowed: set<string>, p: seq<string>) {
    && |p| > 0
    && forall i :: 0 < i < |p| ==> (p[i - 1], p[i]) in es && p[i] in allowed
  }

  /** Some path of zero or more edges leads from `a` to `b`. */
  ghost predicate Reaches(es: Edges, allowed: set<string>, a: string, b: string) {
    exists p :: IsPath(es, allowed, p) && p[0] == a && p[|p| - 1] == b
  }

  /** The nodes that some edge enters or leaves. */
  function Nodes(es: Edges): (nodes: set<string>)
    ensures forall e :: e in es ==> e.0 in nodes && e.1 in nodes
  {
    if es == [] then {}
    else Nodes(es[1..]) + {es[0].0, es[0].1}
  }

  /** No edge closes a cycle. */
  ghost predicate Acyclic(es: Edges) {
    forall a, b :: (a, b) in es ==> !Reaches(es, Nodes(es), b, a)
  }

  lemma ReachesRefl(es: Edges, allowed: set<string>, a: string)
    ensures Reaches(es, allowed, a, a)
  {
    assert IsPath(es, allowed, [a]);
  }

  lemma ReachesSnoc(es: Edges, allowed: set<string>, a: string, b: string, c: string)
    requires Reaches(es, allowed, a, b) && (b, c) in es && c in allowed
    ensures Reaches(es, allowed, a, c)
  {
    var p :| IsPath(es, allowed, p) && p[0] == a && p[|p| - 1] == b;
    var q := p + [c];
    forall i | 0 < i < |q| ensures (q[i - 1], q[i]) in es && q[i] in allowed {
      if i < |p| { assert p[i] in allowed; }
    }
    assert IsPath(es, allowed, q);
  }

  /** A path that is not empty has a last edge. */
  lemma ReachesInvert(es: Edges, allowed: set<string>, a: string, c: string) returns (b: string)
    requires Reaches(es, allowed, a, c) && a != c
    ensures Reaches(es, allowed, a, b) && (b, c) in es && c in allowed
  {
    var p :| IsPath(es, allowed, p) && p[0] == a && p[|p| - 1] == c;
    var q := p[..|p| - 1];
    assert IsPath(es, allowed, q);
    b := q[|q| - 1];
  }

  lemma {:induction false} ReachesAlong(es: Edges, allowed: set<string>, a: string, p: seq<string>, k: nat)
    requires IsPath(es, allowed, p) && k < |p| && Reaches(es, allowed, a, p[0])
    ensures Reaches(es, allowed, a, p[k])
  {
    if k > 0 {
      ReachesAlong(es, allowed, a, p, k - 1);
      ReachesSnoc(es, allowed, a, p[k - 1], p[k]);
    }
  }

  lemma ReachesTransitive(es: Edges, allowed: set<string>, a: string, b: string, c: string)
    requires Reaches(es, allowed, a, b) && Reaches(es, allowed, b, c)
    ensures Reaches(es, allowed, a, c)
  {
    var p :| IsPath(es, allowed, p) && p[0] == b && p[|p| - 1] == c;
    ReachesAlong(es, allowed, a, p, |p| - 1);
  }

  lemma ReachesWiden(es: Edges, allowed: set<string>, a: string, b: string)
    requires Reaches(es, allowed, a, b)
    ensures Reaches(es, Nodes(es), a, b)
  {
    var p :| IsPath(es, allowed, p) && p[0] == a && p[|p| - 1] == b;
    forall i | 0 < i < |p| ensures p[i] in Nodes(es) {
      assert (p[i - 1], p[i]) in es;
      assert (p[i - 1], p[i]).1 in Nodes(es);
    }
    assert IsPath(es, Nodes(es), p);
  }

  /** A set closed under edges into `allowed` holds everything its members reach. */
  lemma ClosedHoldsReachable(es: Edges, allowed: set<string>, s: set<string>, a: string, b: string)
    requires a in s && Reaches(es, allowed, a, b)
    requires forall x, y :: x in s && (x, y) in es && y in allowed ==> y in s
    ensures b in s
  {
    var p :| IsPath(es, allowed, p) && p[0] == a && p[|p| - 1] == b;
    var k := 0;
    while k < |p| - 1
      invariant 0 <= k < |p| && p[k] in s
    {
      assert (p[k], p[k + 1]) in es;
      k := k + 1;
    }
  }

  /** In an acyclic graph two different nodes never reach each other. */
  lemma AcyclicAntisymmetric(es: Edges, a: string, b: string)
    requires Acyclic(es) && Reaches(es, Nodes(es), a, b) && Reaches(es, Nodes(es), b, a)
    ensures a == b
  {
    if a != b {
      var c := ReachesInvert(es, Nodes(es), a, b);
      ReachesTransitive(es, Nodes(es), b, a, c);
      assert false;
    }
  }

  ghost function Ancestors(es: Edges, n: string): set<string> {
    set a | a in Nodes(es) + {n} && Reaches(es, Nodes(es), a, n)
  }

  /** The measure of every recursion over parents: ancestor sets shrink along parent edges. */
  lemma AncestorsShrink(es: Edges, p: string, c: string)
    requires Acyclic(es) && (p, c) in es
    ensures Ancestors(es, p) < Ancestors(es, c)
  {
    assert (p, c).0 in Nodes(es) && (p, c).1 in Nodes(es);
    forall a | a in Ancestors(es, p) ensures a in Ancestors(es, c) {
      ReachesSnoc(es, Nodes(es), a, p, c);
    }
    ReachesRefl(es, Nodes(es), c);
    assert c in Ancestors(es, c) && c !in Ancestors(es, p);
  }

  /** No later element of `order` leads to an earlier one, and no element occurs twice. */
  ghost predicate Topological(es: Edges, order: seq<string>) {
    forall i, j :: 0 <= i < j < |order| ==> !Reaches(es, Nodes(es), order[j], order[i])
  }

  /** Of finitely many nodes of an acyclic graph, one is reached by no other. */
  lemma {:induction false} SourceExists(es: Edges, s: set<string>) returns (n: string)
    requires Acyclic(es) && s != {}
    ensures n in s && forall m :: m in s && m != n ==> !Reaches(es, Nodes(es), m, n)
  {
    n :| n in s;
    if m :| m in s && m != n && Reaches(es, Nodes(es), m, n) {
      if Reaches(es, Nodes(es), n, m) { AcyclicAntisymmetric(es, n, m); }
      assert m in s - {n};
      var k := SourceExists(es, s - {n});
      if Reaches(es, Nodes(es), n, k) {
        ReachesTransitive(es, Nodes(es), m, n, k);
        assert false;
      }
      n := k;
    }
  }

  lemma {:induction false} TopologicalOrderExists(es: Edges, s: set<string>) returns (order: seq<string>)
    requires Acyclic(es)
    ensures Topological(es, order) && forall n :: n in order <==> n in s
  {
    order := [];
    if s != {} {
      var n := SourceExists(es, s);
      var rest := TopologicalOrderExists(es, s - {n});
      order := [n] + rest;
      forall j | 0 < j < |order| ensures !Reaches(es, Nodes(es), order[j], n) {
        assert order[j] in rest;
      }
    }
  }
}
