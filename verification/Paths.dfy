/** Reachability in a directed graph given by its successor sets. */
module Paths {
  import opened NodeIds

  type Graph = NodeId -> set<NodeId>

  /** A walk along the edges of `g` that never steps onto a node of `avoid`; its first node is free. */
  ghost predicate IsPath(g: Graph, avoid: set<NodeId>, p: seq<NodeId>) {
    && |p| > 0
    && forall j, k {:trigger p[j], p[k]} :: 0 <= j < |p| - 1 && k == j + 1 ==> p[k] in g(p[j]) && p[k] !in avoid
  }

  ghost predicate Reaches(g: Graph, avoid: set<NodeId>, from: set<NodeId>, n: NodeId) {
    exists p :: IsPath(g, avoid, p) && p[0] in from && p[|p| - 1] == n
  }

  /** `n` is reached from `a` in one step or more. */
  ghost predicate Below(g: Graph, a: NodeId, n: NodeId) {
    exists p :: IsPath(g, {}, p) && |p| > 1 && p[0] == a && p[|p| - 1] == n
  }

  ghost predicate Acyclic(g: Graph) {
    forall n :: !Below(g, n, n)
  }

  lemma StartReaches(g: Graph, avoid: set<NodeId>, from: set<NodeId>, n: NodeId)
    requires n in from
    ensures Reaches(g, avoid, from, n)
  {
    assert IsPath(g, avoid, [n]);
  }

  /** Only its first node may be one to avoid. */
  lemma ReachedIsNew(g: Graph, avoid: set<NodeId>, from: set<NodeId>, n: NodeId)
    requires Reaches(g, avoid, from, n)
    ensures n in from || n !in avoid
  {
    var p :| IsPath(g, avoid, p) && p[0] in from && p[|p| - 1] == n;
    if |p| > 1 {
      var j := |p| - 2;
      assert p[j + 1] in g(p[j]);
    }
  }

  /** A walk that starts one step below `from` and avoids more is a walk from `from`. */
  lemma PrependStep(g: Graph, avoid: set<NodeId>, more: set<NodeId>, from: set<NodeId>, next: set<NodeId>, n: NodeId)
    requires avoid <= more
    requires forall t :: t in next ==> t !in avoid && exists a :: a in from && t in g(a)
    requires Reaches(g, more, next, n)
    ensures Reaches(g, avoid, from, n)
  {
    var p :| IsPath(g, more, p) && p[0] in next && p[|p| - 1] == n;
    var a :| a in from && p[0] in g(a);
    var q := [a] + p;
    forall j, k | 0 <= j < |q| - 1 && k == j + 1
      ensures q[k] in g(q[j]) && q[k] !in avoid
    {
      assert q[k] == p[j];
      if j > 0 {
        assert q[j] == p[j - 1];
      }
    }
    assert IsPath(g, avoid, q);
  }

  /** What contains the start and the new targets of all it newly contains has every node of the walk. */
  lemma {:induction false} PathStaysInside(g: Graph, avoid: set<NodeId>, p: seq<NodeId>, inside: set<NodeId>, k: nat)
    requires IsPath(g, avoid, p) && k < |p|
    requires p[0] in inside && g(p[0]) <= inside
    requires forall n :: n in inside && n !in avoid ==> g(n) <= inside
    ensures p[k] in inside
  {
    if k > 0 {
      PathStaysInside(g, avoid, p, inside, k - 1);
      var j := k - 1;
      assert p[k] in g(p[j]);
      if j > 0 {
        assert p[j - 1] == p[j - 1] && p[j] !in avoid;
      }
    }
  }

  lemma ReachesStaysInside(g: Graph, avoid: set<NodeId>, from: set<NodeId>, n: NodeId, inside: set<NodeId>)
    requires Reaches(g, avoid, from, n)
    requires forall a :: a in from ==> a in inside && g(a) <= inside
    requires forall a :: a in inside && a !in avoid ==> g(a) <= inside
    ensures n in inside
  {
    var p :| IsPath(g, avoid, p) && p[0] in from && p[|p| - 1] == n;
    PathStaysInside(g, avoid, p, inside, |p| - 1);
  }

  lemma StepBelow(g: Graph, a: NodeId, b: NodeId)
    requires b in g(a)
    ensures Below(g, a, b)
  {
    var p := [a, b];
    assert IsPath(g, {}, p);
    assert p[|p| - 1] == b;
  }

  lemma BelowTransitive(g: Graph, a: NodeId, b: NodeId, c: NodeId)
    requires Below(g, a, b) && Below(g, b, c)
    ensures Below(g, a, c)
  {
    var p :| IsPath(g, {}, p) && |p| > 1 && p[0] == a && p[|p| - 1] == b;
    var q :| IsPath(g, {}, q) && |q| > 1 && q[0] == b && q[|q| - 1] == c;
    var r := p + q[1..];
    forall j, k | 0 <= j < |r| - 1 && k == j + 1
      ensures r[k] in g(r[j])
    {
      if k >= |p| {
        assert r[k] == q[k - |p| + 1];
        assert r[j] == q[j - |p| + 1];
      } else {
        assert r[k] == p[k] && r[j] == p[j];
      }
    }
    assert IsPath(g, {}, r);
  }

  /** The first step of a walk of one step or more. */
  lemma BelowFirstStep(g: Graph, a: NodeId, n: NodeId) returns (m: NodeId)
    requires Below(g, a, n)
    ensures m in g(a) && (m == n || Below(g, m, n))
  {
    var p :| IsPath(g, {}, p) && |p| > 1 && p[0] == a && p[|p| - 1] == n;
    m := p[1];
    if |p| > 2 {
      var q := p[1..];
      forall j, k | 0 <= j < |q| - 1 && k == j + 1
        ensures q[k] in g(q[j])
      {
        assert q[j] == p[j + 1] && q[k] == p[k + 1];
      }
      assert IsPath(g, {}, q);
    }
  }
}
