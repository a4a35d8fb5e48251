/** The recursion of the cached subtype test: when it ends, and what its answer means. */
module SubtypeTest {
  import opened NodeIds
  import opened Paths
  import opened ReferenceGraph
  import opened BrowserSpec
  import opened TypeHierarchy

  /** The subtypes of every node, in the order in which its entry lists them. */
  type Lists = NodeId -> seq<NodeId>

  function SubtypeList(index: Ordered<NodeId>): seq<NodeId> {
    if index == [] then []
    else (if index[0].1.referenceType == HAS_SUBTYPE then [index[0].0] else []) + SubtypeList(index[1..])
  }

  ghost function SubtypeLists(server: Server, cache: Cache): Lists {
    n => SubtypeList(EffectiveEntry(server, cache, n).byNodeId)
  }

  /** `h` has the lists that browsing can show. */
  ghost predicate ShowsLists(server: Server, cache: Cache, h: Lists) {
    forall n :: h(n) == SubtypeList(EffectiveEntry(server, cache, n).byNodeId)
  }

  lemma ExtendsShowsSameLists(server: Server, before: Cache, cache: Cache, h: Lists)
    requires Extends(server, before, cache) && ShowsLists(server, before, h)
    ensures ShowsLists(server, cache, h)
  {
    forall n
      ensures h(n) == SubtypeList(EffectiveEntry(server, cache, n).byNodeId)
    {
      assert EffectiveEntry(server, cache, n) == EffectiveEntry(server, before, n);
    }
  }

  datatype Verdict = Yes | No | OutOfFuel

  /** The recursion, cut off after `fuel` levels. */
  function Test(h: Lists, t: NodeId, base: NodeId, fuel: nat): Verdict
    decreases fuel, 0
  {
    if t == base then Yes
    else if t.IsNull() then No
    else if fuel == 0 then OutOfFuel
    else TestAny(h, t, h(base), fuel - 1)
  }

  function TestAny(h: Lists, t: NodeId, bases: seq<NodeId>, fuel: nat): Verdict
    decreases fuel, 1 + |bases|
  {
    if bases == [] then No
    else
      match Test(h, t, bases[0], fuel)
      case No => TestAny(h, t, bases[1..], fuel)
      case verdict => verdict
  }

  /** The recursion ends: at some depth it is not cut off. */
  ghost predicate Ends(h: Lists, t: NodeId, base: NodeId) {
    exists fuel: nat :: Test(h, t, base, fuel) != OutOfFuel
  }

  lemma TestStep(h: Lists, t: NodeId, base: NodeId, fuel: nat)
    requires t != base && !t.IsNull() && Test(h, t, base, fuel) != OutOfFuel
    ensures fuel > 0 && Test(h, t, base, fuel) == TestAny(h, t, h(base), fuel - 1)
  {
  }

  // ---------- the answer is reachability ----------

  ghost function GraphOf(h: Lists): Graph {
    n => Elems(h(n))
  }

  lemma ChildHit(g: Graph, base: NodeId, child: NodeId, t: NodeId)
    requires child in g(base) && !t.IsNull() && SubtypeOrSame(g, t, child)
    ensures SubtypeOrSame(g, t, base)
  {
    StepBelow(g, base, child);
    if t != child {
      BelowTransitive(g, base, child, t);
    }
  }

  lemma NoChildHit(g: Graph, base: NodeId, t: NodeId)
    requires t != base && forall child :: child in g(base) ==> !SubtypeOrSame(g, t, child)
    ensures !SubtypeOrSame(g, t, base)
  {
    if !t.IsNull() && Below(g, base, t) {
      var child := BelowFirstStep(g, base, t);
    }
  }

  /** An answer, whenever there is one, is the right one, on cyclic relations too. */
  lemma {:induction false} AnswerIsReachability(h: Lists, t: NodeId, base: NodeId, fuel: nat)
    requires Test(h, t, base, fuel) != OutOfFuel
    ensures Test(h, t, base, fuel) == Yes <==> SubtypeOrSame(GraphOf(h), t, base)
    decreases fuel, 0
  {
    hide SubtypeOrSame;
    if t == base {
      SameIsSubtype(GraphOf(h), t);
    } else if t.IsNull() {
      NullIsNone(GraphOf(h), t, base);
    } else {
      AnyIsReachability(h, t, h(base), fuel - 1);
      if TestAny(h, t, h(base), fuel - 1) == Yes {
        var child :| child in h(base) && SubtypeOrSame(GraphOf(h), t, child);
        ChildHit(GraphOf(h), base, child, t);
      } else {
        NoChildHit(GraphOf(h), base, t);
      }
    }
  }

  lemma SameIsSubtype(g: Graph, t: NodeId)
    ensures SubtypeOrSame(g, t, t)
  {
  }

  lemma NullIsNone(g: Graph, t: NodeId, base: NodeId)
    requires t.IsNull() && t != base
    ensures !SubtypeOrSame(g, t, base)
  {
  }

  lemma {:induction false} AnyIsReachability(h: Lists, t: NodeId, bases: seq<NodeId>, fuel: nat)
    requires TestAny(h, t, bases, fuel) != OutOfFuel
    ensures TestAny(h, t, bases, fuel) == Yes <==> exists b :: b in bases && SubtypeOrSame(GraphOf(h), t, b)
    decreases fuel, 1 + |bases|
  {
    hide SubtypeOrSame;
    if bases != [] {
      AnswerIsReachability(h, t, bases[0], fuel);
      if Test(h, t, bases[0], fuel) == No {
        AnyIsReachability(h, t, bases[1..], fuel);
        assert forall b :: b in bases <==> b == bases[0] || b in bases[1..];
      }
    }
  }

  // ---------- when the recursion ends ----------

  ghost predicate LeadsNowhere(h: Lists, t: NodeId, bases: seq<NodeId>) {
    forall b :: b in bases ==> !SubtypeOrSame(GraphOf(h), t, b)
  }

  /** The test below `a` gets as far as testing `h(a)[k]`: none of the subtypes before it leads to `t`. */
  ghost predicate OpensAt(h: Lists, t: NodeId, a: NodeId, k: nat) {
    t != a && !t.IsNull() && k < |h(a)| && LeadsNowhere(h, t, h(a)[..k])
  }

  ghost predicate Opens(h: Lists, t: NodeId, a: NodeId, c: NodeId) {
    exists k: nat :: OpensAt(h, t, a, k) && h(a)[k] == c
  }

  /** Nested tests, each opened by the one before. */
  ghost predicate Nested(h: Lists, t: NodeId, p: seq<NodeId>) {
    |p| > 0 && forall i, j {:trigger p[i], p[j]} :: 0 <= i < |p| - 1 && j == i + 1 ==> Opens(h, t, p[i], p[j])
  }

  /** There is a circle below `base`, none of whose nodes and of the nodes on the way to it is `t`, and no subtype
      listed before the next node leads to `t`: the search comes back to a node whose test is still open. */
  ghost predicate ComesBack(h: Lists, t: NodeId, base: NodeId) {
    exists p, i: nat :: i < |p| - 1 && p[0] == base && p[i] == p[|p| - 1] && Nested(h, t, p)
  }

  /** A test that opens another ends only after it. */
  lemma OpenedEndsFirst(h: Lists, t: NodeId, a: NodeId, c: NodeId, fuel: nat)
    requires Opens(h, t, a, c) && Test(h, t, a, fuel) != OutOfFuel
    ensures fuel > 0 && Test(h, t, c, fuel - 1) != OutOfFuel
  {
    var k: nat :| OpensAt(h, t, a, k) && h(a)[k] == c;
    OpenedAmong(h, t, h(a), k, fuel - 1);
  }

  lemma {:induction false} OpenedAmong(h: Lists, t: NodeId, bases: seq<NodeId>, k: nat, fuel: nat)
    requires k < |bases| && LeadsNowhere(h, t, bases[..k]) && TestAny(h, t, bases, fuel) != OutOfFuel
    ensures Test(h, t, bases[k], fuel) != OutOfFuel
    decreases k
  {
    if k > 0 {
      assert bases[0] in bases[..k];
      NoAnswerButNo(h, t, bases[0], fuel);
      assert bases[1..][..k - 1] == bases[..k][1..];
      OpenedAmong(h, t, bases[1..], k - 1, fuel);
    }
  }

  lemma NoAnswerButNo(h: Lists, t: NodeId, b: NodeId, fuel: nat)
    requires !SubtypeOrSame(GraphOf(h), t, b)
    ensures Test(h, t, b, fuel) == No || Test(h, t, b, fuel) == OutOfFuel
  {
    if Test(h, t, b, fuel) != OutOfFuel {
      AnswerIsReachability(h, t, b, fuel);
    }
  }

  lemma {:induction false} NestedEndsFirst(h: Lists, t: NodeId, p: seq<NodeId>, i: nat, j: nat, fuel: nat)
    requires Nested(h, t, p) && i <= j < |p| && Test(h, t, p[i], fuel) != OutOfFuel
    ensures j - i <= fuel && Test(h, t, p[j], fuel - (j - i)) != OutOfFuel
    decreases j - i
  {
    if i < j {
      var next := i + 1;
      assert Opens(h, t, p[i], p[next]);
      OpenedEndsFirst(h, t, p[i], p[next], fuel);
      NestedEndsFirst(h, t, p, next, j, fuel - 1);
    }
  }

  /** A test that comes back to itself needs ever less depth than it needs. */
  lemma {:induction false} CircleNeverEnds(h: Lists, t: NodeId, p: seq<NodeId>, i: nat, fuel: nat)
    requires Nested(h, t, p) && i < |p| - 1 && p[i] == p[|p| - 1]
    ensures Test(h, t, p[i], fuel) == OutOfFuel
    decreases fuel
  {
    if Test(h, t, p[i], fuel) != OutOfFuel {
      NestedEndsFirst(h, t, p, i, |p| - 1, fuel);
      CircleNeverEnds(h, t, p, i, fuel - (|p| - 1 - i));
    }
  }

  /** Where the test is cut off, it has opened another that is cut off. */
  lemma CutOffBelow(h: Lists, t: NodeId, a: NodeId, fuel: nat) returns (c: NodeId)
    requires fuel > 0 && Test(h, t, a, fuel) == OutOfFuel
    ensures Opens(h, t, a, c) && Test(h, t, c, fuel - 1) == OutOfFuel
  {
    var k := CutOffAmong(h, t, h(a), fuel - 1);
    c := h(a)[k];
    assert OpensAt(h, t, a, k);
  }

  lemma {:induction false} CutOffAmong(h: Lists, t: NodeId, bases: seq<NodeId>, fuel: nat) returns (k: nat)
    requires TestAny(h, t, bases, fuel) == OutOfFuel
    ensures k < |bases| && LeadsNowhere(h, t, bases[..k]) && Test(h, t, bases[k], fuel) == OutOfFuel
    decreases |bases|
  {
    if Test(h, t, bases[0], fuel) == OutOfFuel {
      k := 0;
    } else {
      var j := CutOffAmong(h, t, bases[1..], fuel);
      k := j + 1;
      AnswerIsReachability(h, t, bases[0], fuel);
      forall b | b in bases[..k]
        ensures !SubtypeOrSame(GraphOf(h), t, b)
      {
        assert b == bases[0] || b in bases[1..][..j];
      }
    }
  }

  /** All nodes that have subtypes. */
  ghost predicate HasAllParents(h: Lists, universe: set<NodeId>) {
    forall n :: h(n) != [] ==> n in universe
  }

  lemma NestedOnly(h: Lists, t: NodeId, base: NodeId)
    ensures Nested(h, t, [base]) && [base][0] == base && |[base]| == 1
  {
  }

  lemma OpensHasChild(h: Lists, t: NodeId, a: NodeId, c: NodeId)
    requires Opens(h, t, a, c)
    ensures h(a) != []
  {
  }

  /** A test that is cut off at more depth than there are nodes with subtypes has come back to an open one. */
  lemma {:induction false} CutOffComesBack(h: Lists, t: NodeId, p: seq<NodeId>, left: set<NodeId>, fuel: nat)
    requires Nested(h, t, p) && fuel > |left| && Test(h, t, p[|p| - 1], fuel) == OutOfFuel
    requires forall n :: h(n) != [] ==> n in left || n in p[..|p| - 1]
    ensures exists q, i: nat :: i < |q| - 1 && q[0] == p[0] && q[i] == q[|q| - 1] && Nested(h, t, q)
    decreases fuel
  {
    var last := p[|p| - 1];
    if i: nat :| i < |p| - 1 && p[i] == last {
      return;
    }
    var c := CutOffBelow(h, t, last, fuel);
    OpensHasChild(h, t, last, c);
    assert last in left by {
      assert last !in p[..|p| - 1];
    }
    var q := p + [c];
    assert q[..|q| - 1] == p;
    forall i, j | 0 <= i < |q| - 1 && j == i + 1
      ensures Opens(h, t, q[i], q[j])
    {
      if j < |p| {
        assert q[i] == p[i] && q[j] == p[j];
      }
    }
    forall n | h(n) != []
      ensures n in left - {last} || n in p
    {
      if n in p[..|p| - 1] {
        assert n in p;
      }
    }
    CutOffComesBack(h, t, q, left - {last}, fuel - 1);
  }

  lemma ComesBackNeverEnds(h: Lists, t: NodeId, base: NodeId, fuel: nat)
    requires ComesBack(h, t, base)
    ensures Test(h, t, base, fuel) == OutOfFuel
  {
    hide Nested, Test;
    var p, i: nat :| i < |p| - 1 && p[0] == base && p[i] == p[|p| - 1] && Nested(h, t, p);
    if Test(h, t, base, fuel) != OutOfFuel {
      NestedEndsFirst(h, t, p, 0, i, fuel);
      CircleNeverEnds(h, t, p, i, fuel - i);
    }
  }

  /** The recursion ends if and only if there is no such circle: whatever circle lies below the base, a subtype that
      leads to the type, or the type itself, comes before it. */
  lemma EndsIff(h: Lists, t: NodeId, base: NodeId, universe: set<NodeId>)
    requires HasAllParents(h, universe)
    ensures Ends(h, t, base) <==> !ComesBack(h, t, base)
    ensures Ends(h, t, base) <==> Test(h, t, base, |universe| + 1) != OutOfFuel
  {
    hide Test, TestAny;
    if ComesBack(h, t, base) {
      forall fuel: nat
        ensures Test(h, t, base, fuel) == OutOfFuel
      {
        ComesBackNeverEnds(h, t, base, fuel);
      }
    }
    if Test(h, t, base, |universe| + 1) == OutOfFuel {
      NestedOnly(h, t, base);
      CutOffComesBack(h, t, [base], universe, |universe| + 1);
    }
  }

  lemma {:induction false} NestedIsBelow(h: Lists, t: NodeId, p: seq<NodeId>, i: nat, j: nat)
    requires Nested(h, t, p) && i < j < |p|
    ensures Below(GraphOf(h), p[i], p[j])
    decreases j - i
  {
    var next := i + 1;
    assert Opens(h, t, p[i], p[next]);
    StepBelow(GraphOf(h), p[i], p[next]);
    if next < j {
      NestedIsBelow(h, t, p, next, j);
      BelowTransitive(GraphOf(h), p[i], p[next], p[j]);
    }
  }

  /** On an acyclic relation it always ends. */
  lemma AcyclicEnds(h: Lists, t: NodeId, base: NodeId, universe: set<NodeId>)
    requires HasAllParents(h, universe) && Acyclic(GraphOf(h))
    ensures Ends(h, t, base)
  {
    hide Nested, Test, Acyclic, Below, Ends;
    EndsIff(h, t, base, universe);
    if ComesBack(h, t, base) {
      var p, i: nat :| i < |p| - 1 && p[0] == base && p[i] == p[|p| - 1] && Nested(h, t, p);
      NestedIsBelow(h, t, p, i, |p| - 1);
      NotBelowItself(GraphOf(h), p[i]);
    }
  }

  lemma NotBelowItself(g: Graph, n: NodeId)
    requires Acyclic(g)
    ensures !Below(g, n, n)
  {
  }

  // ---------- the relation that the cache shows ----------

  /** The relation of the HasSubtype entries that browsing can show. */
  ghost function SubtypeGraph(server: Server, cache: Cache): Graph {
    GraphOf(SubtypeLists(server, cache))
  }

  lemma {:induction false} InList(index: Ordered<NodeId>, n: NodeId)
    ensures n in SubtypeList(index) <==> exists p :: p in index && p.1.referenceType == HAS_SUBTYPE && p.0 == n
  {
    if index != [] {
      InList(index[1..], n);
      assert forall p :: p in index <==> p == index[0] || p in index[1..];
    }
  }

  /** Its edges are the HasSubtype entries. */
  lemma SubtypeGraphIsEntries(server: Server, cache: Cache, n: NodeId, child: NodeId)
    ensures child in SubtypeGraph(server, cache)(n) <==>
            exists p :: p in EffectiveEntry(server, cache, n).byNodeId && p.1.referenceType == Numeric(0, 45) &&
              p.0 == child
  {
    InList(EffectiveEntry(server, cache, n).byNodeId, child);
  }

  lemma TypesWithSubtypes(server: Server, cache: Cache)
    ensures HasAllParents(SubtypeLists(server, cache), cache.Keys + server.Keys)
  {
    forall n | n !in cache.Keys + server.Keys
      ensures SubtypeLists(server, cache)(n) == []
    {
      assert EffectiveEntry(server, cache, n) == NO_REFERENCES;
    }
  }

  /** On every server the test ends if and only if no circle of the relation comes before what leads to the type, and so
      always when the relation has no circle. */
  lemma TestEndsIff(server: Server, cache: Cache, t: NodeId, base: NodeId)
    ensures Ends(SubtypeLists(server, cache), t, base) <==> !ComesBack(SubtypeLists(server, cache), t, base)
    ensures Acyclic(SubtypeGraph(server, cache)) ==> Ends(SubtypeLists(server, cache), t, base)
  {
    hide Ends, ComesBack, Acyclic;
    TypesWithSubtypes(server, cache);
    EndsIff(SubtypeLists(server, cache), t, base, cache.Keys + server.Keys);
    if Acyclic(SubtypeGraph(server, cache)) {
      AcyclicEnds(SubtypeLists(server, cache), t, base, cache.Keys + server.Keys);
    }
  }

  // ---------- the two tests ----------

  /** The upward walk and the cached test, asked for each base, disagree exactly when a base lies above the type only
      beyond the depth limit of the walk. */
  lemma WalkAgreesWithTest(server: Server, cache: Cache, up: Supertypes, t: NodeId, bases: seq<NodeId>)
    requires SingleInheritance(up, SubtypeGraph(server, cache)) && !t.IsNull()
    requires forall b :: b in bases ==> !b.IsNull() && Ends(SubtypeLists(server, cache), t, b)
    ensures (WalkFinds(up, t, bases) <==> TestFinds(SubtypeLists(server, cache), t, bases))
            <==> !OnlyBeyondLimit(up, t, bases)
    ensures FewAncestors(up, t) ==> !OnlyBeyondLimit(up, t, bases)
  {
    hide WalkFinds, OnlyBeyondLimit, FewAncestors, SingleInheritance, SubtypeOrSame, Test;
    var h := SubtypeLists(server, cache);
    WalkAgreesWithCache(up, SubtypeGraph(server, cache), t, bases);
    forall b | b in bases
      ensures SubtypeOrSame(GraphOf(h), t, b) <==> AnswersYes(h, t, b)
    {
      var fuel: nat :| Test(h, t, b, fuel) != OutOfFuel;
      AnswerIsReachability(h, t, b, fuel);
      if AnswersYes(h, t, b) {
        var other: nat :| Test(h, t, b, other) == Yes;
        AnswerIsReachability(h, t, b, other);
      }
    }
  }

  ghost predicate AnswersYes(h: Lists, t: NodeId, base: NodeId) {
    exists fuel: nat :: Test(h, t, base, fuel) == Yes
  }

  ghost predicate TestFinds(h: Lists, t: NodeId, bases: seq<NodeId>) {
    exists b :: b in bases && AnswersYes(h, t, b)
  }
}
