/** What a filtered browse returns, said reference by reference. */
module FilterLaws {
  import opened NodeIds
  import opened Paths
  import opened ReferenceGraph
  import opened BrowserSpec
  import opened TypeHierarchy
  import opened CachedReferenceBrowser

  /** No two entries of the index have the same key. */
  predicate DistinctKeys<K(==)>(index: Ordered<K>) {
    forall i, j :: 0 <= i < j < |index| ==> index[i].0 != index[j].0
  }

  lemma {:induction false} IndexHasDistinctKeys(refs: seq<Reference>)
    ensures DistinctKeys(IndexOf(refs).byNodeId) && DistinctKeys(IndexOf(refs).byBrowseName)
  {
    if refs != [] {
      IndexHasDistinctKeys(refs[..|refs| - 1]);
    }
  }

  /** The index by name lists the references under their names. */
  predicate NamedOnce(named: Ordered<string>) {
    DistinctKeys(named) && forall i :: 0 <= i < |named| ==> named[i].0 == named[i].1.browseName
  }

  lemma EntryIsNamedOnce(server: Server, n: NodeId)
    ensures NamedOnce(Entry(server, n).byBrowseName)
  {
    IndexHasDistinctKeys(Links(server, n));
    IndexIsWellKeyed(Links(server, n));
    var named := Entry(server, n).byBrowseName;
    forall i | 0 <= i < |named|
      ensures named[i].0 == named[i].1.browseName
    {
      assert named[i] in named;
    }
  }

  lemma {:induction false} AcceptedAre(g: Graph, filter: BrowseFilter, named: Ordered<string>)
    requires NamedOnce(named)
    ensures var refs := Accepted(g, filter, named);
            && (forall r :: r in refs <==> Accepts(g, filter, r) && (r.browseName, r) in named)
            && (forall i, j :: 0 <= i < j < |refs| ==> refs[i].browseName != refs[j].browseName)
  {
    hide Accepts;
    if named != [] {
      var n := |named| - 1;
      AcceptedAre(g, filter, named[..n]);
      assert named == named[..n] + [named[n]];
      var before := Accepted(g, filter, named[..n]);
      forall r | r in before
        ensures r.browseName != named[n].1.browseName
      {
        var k :| 0 <= k < n && named[..n][k] == (r.browseName, r);
        assert named[k].0 != named[n].0;
      }
    }
  }

  /** References with different names are all indexed by name, in their order. */
  lemma {:induction false} IndexOfDistinctNames(refs: seq<Reference>)
    requires forall i, j :: 0 <= i < j < |refs| ==> refs[i].browseName != refs[j].browseName
    ensures var index := IndexOf(refs).byBrowseName;
            |index| == |refs| && forall i :: 0 <= i < |refs| ==> index[i] == (refs[i].browseName, refs[i])
  {
    if refs != [] {
      var n := |refs| - 1;
      IndexOfDistinctNames(refs[..n]);
      assert !HasKey(IndexOf(refs[..n]).byBrowseName, refs[n].browseName);
    }
  }

  lemma InsertHasKey<K>(index: Ordered<K>, key: K, ref: Reference, k: K)
    ensures HasKey(Insert(index, key, ref), k) <==> HasKey(index, k) || k == key
  {
    var grown := index + [(key, ref)];
    assert grown[|index|].0 == key;
    assert forall i :: 0 <= i < |index| ==> grown[i] == index[i];
  }

  lemma InsertHas<K>(index: Ordered<K>, key: K, ref: Reference, p: (K, Reference))
    ensures p in Insert(index, key, ref) ==> p in index || p == (key, ref)
  {
    hide HasKey;
  }

  /** The index by target has the targets as its keys, and lists references under their targets. */
  lemma {:induction false} IndexTargets(refs: seq<Reference>, target: NodeId)
    ensures HasKey(IndexOf(refs).byNodeId, target) <==> exists r :: r in refs && r.target == target
    ensures forall p :: p in IndexOf(refs).byNodeId ==> p.1 in refs && p.0 == p.1.target
  {
    hide Insert, HasKey;
    if refs != [] {
      var before, last := refs[..|refs| - 1], refs[|refs| - 1];
      IndexTargets(before, target);
      assert refs == before + [last];
      var index := IndexOf(before).byNodeId;
      InsertHasKey(index, last.target, last, target);
      forall p | p in IndexOf(refs).byNodeId
        ensures p.1 in refs && p.0 == p.1.target
      {
        InsertHas(index, last.target, last, p);
      }
      assert forall r :: r in refs <==> r in before || r == last;
    } else {
      NoKeys(target);
    }
  }

  lemma NoKeys(target: NodeId)
    ensures !HasKey(IndexOf([]).byNodeId, target)
  {
  }

  /** What a filtered browse returns by name: exactly the named references of the entry that have the wanted reference
      type, a wanted subtype as their type definition, the wanted direction and the wanted node class, each if one is
      wanted. */
  lemma FilteredIff(g: Graph, filter: BrowseFilter, named: Ordered<string>, name: string, r: Reference)
    requires NamedOnce(named)
    ensures (name, r) in IndexOf(Accepted(g, filter, named)).byBrowseName <==>
            && (name, r) in named
            && (!filter.referenceType.IsNull() ==> r.referenceType == filter.referenceType)
            && (!filter.typeDefinition.IsNull() ==> SubtypeOrSame(g, r.typeDefinition, filter.typeDefinition))
            && (filter.direction == OnlyForward ==> r.isForward)
            && (filter.direction == OnlyInverse ==> !r.isForward)
            && (filter.nodeClass != 0 ==> r.nodeClass == filter.nodeClass)
  {
    hide SubtypeOrSame;
    var refs := Accepted(g, filter, named);
    AcceptedAre(g, filter, named);
    IndexOfDistinctNames(refs);
    NameIsKey(named, name, r);
    InNameIndex(refs, IndexOf(refs).byBrowseName, name, r);
  }

  lemma NameIsKey(named: Ordered<string>, name: string, r: Reference)
    requires NamedOnce(named)
    ensures (name, r) in named ==> name == r.browseName
  {
    if (name, r) in named {
      var i :| 0 <= i < |named| && named[i] == (name, r);
    }
  }

  lemma InNameIndex(refs: seq<Reference>, index: Ordered<string>, name: string, r: Reference)
    requires |index| == |refs| && forall i :: 0 <= i < |refs| ==> index[i] == (refs[i].browseName, refs[i])
    ensures (name, r) in index <==> name == r.browseName && r in refs
  {
    if r in refs {
      var i :| 0 <= i < |refs| && refs[i] == r;
      assert index[i] == (r.browseName, r);
    }
  }

  /** And by node: under their targets, and a target is there exactly if a reference returned by name leads to it. */
  lemma FilteredNodes(g: Graph, filter: BrowseFilter, named: Ordered<string>, target: NodeId)
    requires NamedOnce(named)
    ensures var index := IndexOf(Accepted(g, filter, named));
            && (HasKey(index.byNodeId, target) <==> exists p :: p in index.byBrowseName && p.1.target == target)
            && (forall p :: p in index.byNodeId ==> p.0 == p.1.target && (p.1.browseName, p.1) in index.byBrowseName)
  {
    var refs := Accepted(g, filter, named);
    var index := IndexOf(refs);
    AcceptedAre(g, filter, named);
    IndexOfDistinctNames(refs);
    IndexTargets(refs, target);
    forall r | r in refs
      ensures (r.browseName, r) in index.byBrowseName
    {
      InNameIndex(refs, index.byBrowseName, r.browseName, r);
    }
    forall p | p in index.byBrowseName
      ensures p.1 in refs
    {
      InNameIndex(refs, index.byBrowseName, p.0, p.1);
    }
    if HasKey(index.byNodeId, target) {
      var r :| r in refs && r.target == target;
      assert (r.browseName, r).1.target == target;
    }
  }

  const NO_FILTER := BrowseFilter(NULL_ID, NULL_ID, BothDirections, 0)

  lemma {:induction false} NoFilterAcceptsAll(g: Graph, named: Ordered<string>)
    ensures |Accepted(g, NO_FILTER, named)| == |named|
    ensures forall i :: 0 <= i < |named| ==> Accepted(g, NO_FILTER, named)[i] == named[i].1
  {
    if named != [] {
      NoFilterAcceptsAll(g, named[..|named| - 1]);
    }
  }

  /** Without any filter the index by name is returned as it is. */
  lemma NoFilterReturnsNames(g: Graph, named: Ordered<string>)
    requires NamedOnce(named)
    ensures IndexOf(Accepted(g, NO_FILTER, named)).byBrowseName == named
  {
    NoFilterAcceptsAll(g, named);
    var refs := Accepted(g, NO_FILTER, named);
    forall i, j | 0 <= i < j < |refs|
      ensures refs[i].browseName != refs[j].browseName
    {
      assert named[i].0 != named[j].0;
    }
    IndexOfDistinctNames(refs);
  }

  /** Without any filter every node is kept if and only if each is led to by a reference that is the first of its
      name. */
  lemma NoFilterKeepsNodesIff(g: Graph, entry: CachedReferences, target: NodeId)
    requires NamedOnce(entry.byBrowseName)
    ensures HasKey(IndexOf(Accepted(g, NO_FILTER, entry.byBrowseName)).byNodeId, target) <==>
            exists p :: p in entry.byBrowseName && p.1.target == target
  {
    NoFilterReturnsNames(g, entry.byBrowseName);
    FilteredNodes(g, NO_FILTER, entry.byBrowseName, target);
  }

  lemma TwoOfOneName(first: Reference, second: Reference)
    requires first.browseName == second.browseName && first.target != second.target
    ensures IndexOf([first, second]).byBrowseName == [(first.browseName, first)]
    ensures HasKey(IndexOf([first, second]).byNodeId, second.target)
  {
    var alone, both := [first], [first, second];
    assert alone[..|alone| - 1] == [] && both[..|both| - 1] == alone;
    var one := IndexOf(alone);
    assert IndexOf([]) == NO_REFERENCES;
    assert one == Add(NO_REFERENCES, first);
    InsertHasKey(NO_REFERENCES.byBrowseName, first.browseName, first, second.browseName);
    assert IndexOf(both) == Add(one, second);
    InsertHasKey(one.byNodeId, second.target, second, second.target);
  }

  /** Of two references that share a name the second is lost, and its node with it. */
  lemma SharedNameLosesNode(g: Graph, a: NodeId, b: NodeId)
    requires a != b
    ensures var refs := [Reference(a, NULL_ID, "x", true, NULL_ID, 1), Reference(b, NULL_ID, "x", true, NULL_ID, 1)];
            var filtered := IndexOf(Accepted(g, NO_FILTER, IndexOf(refs).byBrowseName));
            HasKey(IndexOf(refs).byNodeId, b) && !HasKey(filtered.byNodeId, b)
  {
    hide IndexOf, Accepted, HasKey;
    var first, second := Reference(a, NULL_ID, "x", true, NULL_ID, 1), Reference(b, NULL_ID, "x", true, NULL_ID, 1);
    TwoOfOneName(first, second);
    NoFilterKeepsNodesIff(g, IndexOf([first, second]), b);
  }
}
