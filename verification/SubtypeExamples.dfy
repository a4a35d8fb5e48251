/** Two servers: one on which the cached subtype test never ends, and one on which the two tests differ. */
module SubtypeExamples {
  import opened NodeIds
  import opened ReferenceGraph
  import opened BrowserSpec
  import opened TypeHierarchy
  import opened SubtypeTest

  function Subtype(target: NodeId): Reference {
    Reference(target, HAS_SUBTYPE, "", true, NULL_ID, 0)
  }

  lemma ListOfOne(server: Server, n: NodeId, target: NodeId)
    requires AnswerOf(server, n) == Good([Subtype(target)])
    ensures SubtypeLists(server, map[])(n) == [target]
  {
    assert [Subtype(target)][..0] == [];
    assert IndexOf([Subtype(target)]).byNodeId == [(target, Subtype(target))];
    var index := [(target, Subtype(target))];
    assert index[1..] == [];
    assert SubtypeList(index) == [target] + SubtypeList(index[1..]);
  }

  lemma NoList(server: Server, n: NodeId)
    requires n !in server
    ensures SubtypeLists(server, map[])(n) == []
  {
  }

  // ---------- a type that is its own subtype ----------

  /** A server whose type names itself as its subtype: from an empty cache the test for any other type never ends. */
  lemma SelfSubtypeHangs(t: NodeId, base: NodeId)
    requires t != base && !t.IsNull()
    ensures !Ends(SubtypeLists(map[base := Good([Subtype(base)])], map[]), t, base)
  {
    var h := SubtypeLists(map[base := Good([Subtype(base)])], map[]);
    ListOfOne(map[base := Good([Subtype(base)])], base, base);
    assert OpensAt(h, t, base, 0);
    var p := [base, base];
    assert Nested(h, t, p) && p[0] == base && p[0] == p[|p| - 1];
    forall fuel: nat
      ensures Test(h, t, base, fuel) == OutOfFuel
    {
      ComesBackNeverEnds(h, t, base, fuel);
    }
  }

  // ---------- a type whose base lies beyond the limit ----------

  function Link(i: nat): NodeId {
    Numeric(1, i)
  }

  predicate IsLink(n: NodeId) {
    n.Numeric? && n.ns == 1
  }

  /** Type `i` has type `i + 1` as its supertype, for all types before `n`. */
  function Chain(n: nat): Supertypes {
    if n == 0 then map[] else Chain(n - 1)[Link(n - 1) := [Link(n)]]
  }

  /** The server with these types: type `i + 1` names type `i` as its subtype. */
  function ChainServer(n: nat): Server {
    if n == 0 then map[] else ChainServer(n - 1)[Link(n) := Good([Subtype(Link(n - 1))])]
  }

  lemma {:induction false} ChainHas(n: nat, a: NodeId)
    ensures a in Chain(n) <==> IsLink(a) && a.value < n
    ensures a in Chain(n) ==> Chain(n)[a] == [Link(a.value + 1)]
  {
    if n > 0 {
      ChainHas(n - 1, a);
    }
  }

  lemma {:induction false} ChainServerHas(n: nat, b: NodeId)
    ensures b in ChainServer(n) <==> IsLink(b) && 0 < b.value <= n
    ensures b in ChainServer(n) ==> ChainServer(n)[b] == Good([Subtype(Link(b.value - 1))])
  {
    if n > 0 {
      ChainServerHas(n - 1, b);
    }
  }

  lemma ChainLists(n: nat, b: NodeId)
    ensures SubtypeLists(ChainServer(n), map[])(b) == if IsLink(b) && 0 < b.value <= n then [Link(b.value - 1)] else []
  {
    hide ChainServer, SubtypeLists;
    ChainServerHas(n, b);
    if b in ChainServer(n) {
      ListOfOne(ChainServer(n), b, Link(b.value - 1));
    } else {
      NoList(ChainServer(n), b);
    }
  }

  lemma {:induction false} ChainAncestor(n: nat, k: nat)
    requires k <= n
    ensures Ancestor(Chain(n), Link(0), k) == Link(k)
  {
    if k > 0 {
      ChainAncestor(n, k - 1);
      ChainHas(n, Link(k - 1));
    }
  }

  lemma ChainEdge(n: nat, a: NodeId, b: NodeId)
    ensures a in SubtypeGraph(ChainServer(n), map[])(b) <==> a in Chain(n) && b in Chain(n)[a]
    ensures a in Chain(n) ==> |Chain(n)[a]| <= 1 && !a.IsNull()
    ensures a in Chain(n) && b in Chain(n)[a] ==> !b.IsNull()
  {
    hide Chain, ChainServer, SubtypeLists;
    ChainHas(n, a);
    ChainLists(n, b);
  }

  lemma ChainIsSingle(n: nat)
    ensures SingleInheritance(Chain(n), SubtypeGraph(ChainServer(n), map[]))
  {
    hide Chain, SubtypeGraph;
    forall a, b
      ensures a in SubtypeGraph(ChainServer(n), map[])(b) <==> a in Chain(n) && b in Chain(n)[a]
      ensures a in Chain(n) && b in Chain(n)[a] ==> !b.IsNull()
    {
      ChainEdge(n, a, b);
    }
    forall a | a in Chain(n)
      ensures |Chain(n)[a]| <= 1 && !a.IsNull()
    {
      ChainEdge(n, a, a);
    }
  }

  lemma {:induction false} ChainTest(n: nat, k: nat)
    requires k <= n
    ensures Test(SubtypeLists(ChainServer(n), map[]), Link(0), Link(k), k) == Yes
  {
    hide SubtypeLists;
    if k > 0 {
      ChainTest(n, k - 1);
      ChainLists(n, Link(k));
    }
  }

  /** The walk still finds the base one step nearer, the last that the limit lets it look at. */
  lemma WalkReachesLimit()
    ensures WalkFinds(Chain(33), Link(0), [Link(31)])
  {
    hide Chain, Ancestor;
    ChainAncestor(33, 31);
    assert Link(31) in [Link(31)];
    var k: nat := 31;
    assert k < MAX_TYPE_HIERARCHY_DEPTH && Ancestor(Chain(33), Link(0), k) in [Link(31)];
  }

  /** On a server with a chain of 33 types the walk misses the base at its end, which the cached test finds. */
  lemma WalkMissesDistantBase()
    ensures SingleInheritance(Chain(33), SubtypeGraph(ChainServer(33), map[]))
    ensures Ends(SubtypeLists(ChainServer(33), map[]), Link(0), Link(32))
    ensures OnlyBeyondLimit(Chain(33), Link(0), [Link(32)]) && !WalkFinds(Chain(33), Link(0), [Link(32)])
    ensures TestFinds(SubtypeLists(ChainServer(33), map[]), Link(0), [Link(32)])
  {
    hide Chain, ChainServer, SingleInheritance, Ancestor, SubtypeLists, Test;
    ChainIsSingle(33);
    ChainTest(33, 32);
    forall k: nat | k < 33
      ensures Ancestor(Chain(33), Link(0), k) == Link(k)
    {
      ChainAncestor(33, k);
    }
    assert Ancestor(Chain(33), Link(0), 32) == Link(32);
    assert Link(32) in [Link(32)] && AnswersYes(SubtypeLists(ChainServer(33), map[]), Link(0), Link(32));
  }
}
