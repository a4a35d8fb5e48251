/** The batched recursive crawl and the queries that run on top of it. */
module CachedReferenceBrowser {
  import opened NodeIds
  import opened Paths
  import opened ReferenceGraph
  import opened BrowserSpec
  import opened TypeHierarchy
  import opened SubtypeTest

  /** Targets of the server's references that are not cached yet: what a level still can discover. */
  ghost function Uncached(server: Server, cache: Cache): set<NodeId> {
    AllTargets(server) - cache.Keys
  }

  /** Some requested node is a discoverable node that is not cached. */
  ghost predicate Discovers(server: Server, cache: Cache, nodes: set<NodeId>) {
    nodes * Uncached(server, cache) != {}
  }

  /** How much a crawl of `nodes` has left to do. */
  ghost function Rank(server: Server, cache: Cache, nodes: set<NodeId>): nat {
    2 * |Uncached(server, cache)| + if Discovers(server, cache, nodes) then 0 else 1
  }

  lemma QueuedAreTargets(server: Server, before: Cache, nodes: set<NodeId>, middle: Cache, queued: set<NodeId>)
    requires Level(server, before, nodes, nodes, middle, queued)
    ensures queued <= AllTargets(server) - before.Keys
  {
    forall t | t in queued
      ensures t in AllTargets(server)
    {
      var a :| a in nodes && t in Targets(server, a);
      assert Targets(server, a) <= AllTargets(server);
    }
  }

  lemma {:induction false} SubsetIsSmaller(small: set<NodeId>, big: set<NodeId>)
    requires small <= big
    ensures |small| <= |big| && (|small| == |big| ==> small == big)
  {
    if small != {} {
      var n :| n in small;
      SubsetIsSmaller(small - {n}, big - {n});
    }
  }

  lemma KeysProgress(all: set<NodeId>, before: set<NodeId>, nodes: set<NodeId>, middle: set<NodeId>,
                     queued: set<NodeId>)
    requires before <= middle && nodes <= middle && middle <= before + nodes
    requires queued != {} && queued <= all - before
    ensures |all - middle| <= |all - before|
    ensures nodes * (all - before) != {} ==> |all - middle| < |all - before|
    ensures nodes * (all - before) == {} ==> queued * (all - middle) != {}
  {
    if n :| n in nodes * (all - before) {
      assert n in all - before && n !in all - middle;
      SubsetIsSmaller(all - middle, all - before);
    } else {
      SubsetIsSmaller(all - middle, all - before);
      var t :| t in queued;
      assert t in all - before;
      assert t in nodes ==> t in nodes * (all - before);
      assert t in queued * (all - middle);
    }
  }

  /** Why the crawl ends: a level either caches a discoverable node, or hands one on that it did not cache. */
  lemma LevelProgress(server: Server, before: Cache, nodes: set<NodeId>, middle: Cache, queued: set<NodeId>)
    requires Level(server, before, nodes, nodes, middle, queued)
    requires queued != {}
    ensures Rank(server, middle, queued) < Rank(server, before, nodes)
  {
    QueuedAreTargets(server, before, nodes, middle, queued);
    KeysProgress(AllTargets(server), before.Keys, nodes, middle.Keys, queued);
  }

  ghost predicate BadIsReached(server: Server, before: Cache, nodes: set<NodeId>, n: NodeId) {
    !Tolerated(server, n) && Reaches(Forward(server), before.Keys, nodes, n)
  }

  /** The status a crawl stops at is neither good, nor a denied access, nor an unknown node. */
  lemma BadHasOtherStatus(server: Server, before: Cache, nodes: set<NodeId>, n: NodeId)
    requires BadIsReached(server, before, nodes, n)
    ensures n in server && server[n].OtherStatus?
  {
    hide Reaches;
  }

  /** What the crawl of the queued nodes means for the crawl of the nodes that queued them. */
  lemma NextCrawl(server: Server, before: Cache, nodes: set<NodeId>, middle: Cache, queued: set<NodeId>, cache: Cache,
                  outcome: Outcome)
    requires Level(server, before, nodes, nodes, middle, queued)
    requires Bounded(server, middle, queued, cache)
    requires outcome == Done ==> Crawled(server, middle, queued, cache)
    requires outcome.BadStatus? ==> BadIsReached(server, middle, queued, outcome.node)
    ensures Bounded(server, before, nodes, cache)
    ensures outcome == Done ==> Crawled(server, before, nodes, cache)
    ensures outcome.BadStatus? ==> BadIsReached(server, before, nodes, outcome.node)
  {
    LevelThenBounded(server, before, nodes, middle, queued, cache);
    match outcome
    case Done => LevelThenCrawl(server, before, nodes, middle, queued, cache);
    case ServiceFailure =>
    case BadStatus(n) => NextLevelReaches(server, before, nodes, middle, queued, n);
  }

  /** A crawl that finished came to no node with a status that is not tolerated. */
  lemma NoneBadInCrawl(server: Server, before: Cache, nodes: set<NodeId>, cache: Cache)
    requires Crawled(server, before, nodes, cache)
    ensures forall n :: !BadIsReached(server, before, nodes, n)
  {
    hide Reaches, Tolerated;
    forall n
      ensures !BadIsReached(server, before, nodes, n)
    {
      CrawlKeys(server, before, nodes, cache, n);
      if Reaches(Forward(server), before.Keys, nodes, n) {
        ReachedIsNew(Forward(server), before.Keys, nodes, n);
      }
    }
  }

  /** Nothing that was cached has changed, whatever was added. */
  ghost predicate Keeps(before: Cache, cache: Cache) {
    forall n :: n in before ==> n in cache && cache[n] == before[n]
  }

  lemma CrawlExtends(server: Server, before: Cache, nodes: set<NodeId>, cache: Cache)
    requires Crawled(server, before, nodes, cache) && nodes !! before.Keys
    ensures Extends(server, before, cache)
  {
    forall n | n in cache
      ensures n in before ==> cache[n] == before[n]
      ensures n !in before ==> cache[n] == Entry(server, n)
    {
      assert cache[n] == Final(server, before, nodes, n);
    }
  }

  lemma ExtendsTransitive(server: Server, a: Cache, b: Cache, c: Cache)
    requires Extends(server, a, b) && Extends(server, b, c)
    ensures Extends(server, a, c)
  {
  }

  lemma ExtendsItself(server: Server, c: Cache)
    ensures Extends(server, c, c)
  {
  }

  lemma KeepsAfter(server: Server, a: Cache, b: Cache, c: Cache)
    requires Extends(server, a, b) && Keeps(b, c)
    ensures Keeps(a, c)
  {
  }

  lemma KeptEntry(server: Server, before: Cache, cache: Cache, n: NodeId)
    requires Extends(server, before, cache) && n in before
    ensures n in cache && cache[n] == before[n]
  {
  }

  lemma ExtendsKeeps(server: Server, before: Cache, cache: Cache)
    requires Extends(server, before, cache)
    ensures Keeps(before, cache)
  {
  }

  lemma EmptyLevel(server: Server, before: Cache, nodes: set<NodeId>)
    ensures Level(server, before, nodes, {}, before, {})
  {
  }

  // ---------- invalidation ----------

  ghost function ForwardKeys(children: Ordered<NodeId>): set<NodeId> {
    set p | p in children && p.1.isForward :: p.0
  }

  lemma ForwardKeysGrow(children: Ordered<NodeId>, i: nat)
    requires i < |children|
    ensures ForwardKeys(children[..i + 1]) ==
            ForwardKeys(children[..i]) + if children[i].1.isForward then {children[i].0} else {}
  {
    assert children[..i + 1] == children[..i] + [children[i]];
    forall n
      ensures n in ForwardKeys(children[..i + 1]) <==>
              n in ForwardKeys(children[..i]) || (children[i].1.isForward && n == children[i].0)
    {
      if p :| p in children[..i] && p.1.isForward && p.0 == n {
        assert p in children[..i + 1];
      }
      assert children[..i + 1][i] == children[i];
    }
  }

  /** The keys one invalidation drops: no descendant below the direct children is among them. */
  ghost function Dropped(cache: Cache, nodeId: NodeId, recursive: bool): set<NodeId> {
    if nodeId !in cache then {}
    else if recursive then {nodeId} + ForwardKeys(cache[nodeId].byNodeId)
    else {nodeId}
  }

  // ---------- filtered browsing ----------

  datatype Direction = BothDirections | OnlyForward | OnlyInverse

  const NODE_CLASS_UNSPECIFIED: nat := 0

  datatype BrowseFilter = BrowseFilter(
    referenceType: NodeId,
    typeDefinition: NodeId,
    direction: Direction,
    nodeClass: nat)

  /** The tests of the filter; a null id, both directions and the unspecified class leave their test out. */
  ghost predicate Accepts(g: Graph, filter: BrowseFilter, ref: Reference) {
    && (filter.referenceType.IsNull() || ref.referenceType == filter.referenceType)
    && (filter.typeDefinition.IsNull() || SubtypeOrSame(g, ref.typeDefinition, filter.typeDefinition))
    && (filter.direction == OnlyForward ==> ref.isForward)
    && (filter.direction == OnlyInverse ==> !ref.isForward)
    && (filter.nodeClass == NODE_CLASS_UNSPECIFIED || ref.nodeClass == filter.nodeClass)
  }

  function AddNamed(entry: CachedReferences, browseName: string, ref: Reference): CachedReferences {
    CachedReferences(Insert(entry.byNodeId, ref.target, ref), Insert(entry.byBrowseName, browseName, ref))
  }

  ghost function Accepted(g: Graph, filter: BrowseFilter, named: Ordered<string>): seq<Reference> {
    if named == [] then []
    else
      var ref := named[|named| - 1].1;
      Accepted(g, filter, named[..|named| - 1]) + if Accepts(g, filter, ref) then [ref] else []
  }

  lemma AcceptNext(g: Graph, filter: BrowseFilter, named: Ordered<string>, i: nat)
    requires i < |named|
    ensures var next := Accepted(g, filter, named[..i + 1]);
            if Accepts(g, filter, named[i].1)
            then |next| > 0 && next[|next| - 1] == named[i].1 && next[..|next| - 1] == Accepted(g, filter, named[..i])
            else next == Accepted(g, filter, named[..i])
  {
    assert named[..i + 1][..i] == named[..i];
  }

  lemma IndexAccepted(g: Graph, filter: BrowseFilter, named: Ordered<string>, i: nat)
    requires i < |named| && named[i].0 == named[i].1.browseName
    ensures IndexOf(Accepted(g, filter, named[..i + 1])) ==
            (if Accepts(g, filter, named[i].1)
             then AddNamed(IndexOf(Accepted(g, filter, named[..i])), named[i].0, named[i].1)
             else IndexOf(Accepted(g, filter, named[..i])))
  {
    hide Accepts, Accepted;
    AcceptNext(g, filter, named, i);
  }

  lemma NothingAccepted(g: Graph, filter: BrowseFilter)
    ensures IndexOf(Accepted(g, filter, [])) == NO_REFERENCES
  {
  }

  lemma NamedAt(entry: CachedReferences, i: nat)
    requires WellKeyed(entry) && i < |entry.byBrowseName|
    ensures entry.byBrowseName[i].0 == entry.byBrowseName[i].1.browseName
  {
    assert entry.byBrowseName[i] in entry.byBrowseName;
  }

  /** The keys of the index by name are the names. */
  ghost predicate WellKeyed(entry: CachedReferences) {
    forall p :: p in entry.byBrowseName ==> p.0 == p.1.browseName
  }

  lemma {:induction false} IndexIsWellKeyed(refs: seq<Reference>)
    ensures WellKeyed(IndexOf(refs))
  {
    if refs != [] {
      IndexIsWellKeyed(refs[..|refs| - 1]);
    }
  }

  /** Whatever way a crawl ends, it leaves every entry well keyed. */
  lemma BoundedKeepsWellKeyed(server: Server, before: Cache, nodes: set<NodeId>, cache: Cache)
    requires Bounded(server, before, nodes, cache)
    requires forall n :: n in before ==> WellKeyed(before[n])
    ensures forall n :: n in cache ==> WellKeyed(cache[n])
  {
    forall n | n in cache
      ensures WellKeyed(cache[n])
    {
      IndexIsWellKeyed(Links(server, n));
    }
  }

  /** The type test is reached only behind the test of the reference type, and then must end. */
  ghost predicate TypeTestEnds(h: Lists, filter: BrowseFilter, ref: Reference) {
    || !(filter.referenceType.IsNull() || ref.referenceType == filter.referenceType)
    || filter.typeDefinition.IsNull()
    || Ends(h, ref.typeDefinition, filter.typeDefinition)
  }

  ghost predicate TypeTestsEnd(h: Lists, filter: BrowseFilter, entry: CachedReferences) {
    forall p :: p in entry.byBrowseName ==> TypeTestEnds(h, filter, p.1)
  }

  lemma TypeTestEndsAt(h: Lists, filter: BrowseFilter, entry: CachedReferences, i: nat)
    requires TypeTestsEnd(h, filter, entry) && i < |entry.byBrowseName|
    ensures TypeTestEnds(h, filter, entry.byBrowseName[i].1)
  {
    assert entry.byBrowseName[i] in entry.byBrowseName;
  }

  // ---------- steps of the subtype test ----------

  /** What is left of a list of subtypes at place `i` of the entry, and how that decides the whole test. */
  lemma NextSubtype(h: Lists, t: NodeId, index: Ordered<NodeId>, i: nat, fuel: nat)
    requires i < |index|
    ensures index[i].1.referenceType != HAS_SUBTYPE ==> SubtypeList(index[i..]) == SubtypeList(index[i + 1..])
    ensures index[i].1.referenceType == HAS_SUBTYPE ==>
              TestAny(h, t, SubtypeList(index[i..]), fuel) ==
              (match Test(h, t, index[i].0, fuel)
               case No => TestAny(h, t, SubtypeList(index[i + 1..]), fuel)
               case verdict => verdict)
  {
    hide Test;
    assert index[i..][1..] == index[i + 1..];
    if index[i].1.referenceType == HAS_SUBTYPE {
      assert SubtypeList(index[i..])[1..] == SubtypeList(index[i + 1..]);
    }
  }

  lemma NoSubtypesLeft(h: Lists, t: NodeId, fuel: nat)
    ensures TestAny(h, t, SubtypeList([]), fuel) == No
  {
  }

  lemma ListOfEntry(server: Server, cache: Cache, h: Lists, n: NodeId)
    requires ShowsLists(server, cache, h) && n in cache
    ensures h(n) == SubtypeList(cache[n].byNodeId)
  {
    assert EffectiveEntry(server, cache, n) == cache[n];
  }

  /** Node `i` is the first from `start` on whose status is not tolerated. */
  ghost predicate FirstBad(server: Server, nodes: seq<NodeId>, start: nat, i: nat) {
    && start <= i < |nodes| && !Tolerated(server, nodes[i])
    && forall j :: start <= j < i ==> Tolerated(server, nodes[j])
  }

  class Browser {
    const server: Server
    const maxNodesPerBrowse: nat
    var references: map<NodeId, CachedReferences>
    ghost var failures: nat // the browse calls that have failed

    constructor (server: Server, maxNodesPerBrowse: nat)
      ensures this.server == server && this.maxNodesPerBrowse == maxNodesPerBrowse && references == map[]
      ensures failures == 0
    {
      this.server := server;
      this.maxNodesPerBrowse := maxNodesPerBrowse;
      references, failures := map[], 0;
    }

    predicate IsCached(n: NodeId)
      reads this
    {
      n in references
    }

    method MarkAsCached(n: NodeId)
      modifies this`references
      ensures references == if n in old(references) then old(references) else old(references)[n := NO_REFERENCES]
    {
      if n !in references {
        references := references[n := NO_REFERENCES];
      }
    }

    /** One browse call: it fails as a whole, or answers every requested node in order. */
    method Service(request: seq<NodeId>) returns (ok: bool, results: seq<Answer>)
      modifies this`failures
      ensures failures == old(failures) + if ok then 0 else 1
      ensures ok ==> |results| == |request|
      ensures ok ==> forall i :: 0 <= i < |request| ==> results[i] == AnswerOf(server, request[i])
    {
      var answered: bool := *;
      ok := answered;
      failures := failures + if ok then 0 else 1;
      results := seq(|request|, i requires 0 <= i < |request| => AnswerOf(server, request[i]));
    }

    /** Replaces the entry of `nodeId` by the index of `refs` and queues the forward targets not cached yet. */
    method FillEntry(nodeId: NodeId, refs: seq<Reference>, browseNext: seq<NodeId>) returns (next: seq<NodeId>)
      requires nodeId in references
      modifies this`references
      ensures references == old(references)[nodeId := IndexOf(refs)]
      ensures next == browseNext + Missing(refs, references.Keys)
    {
      hide Add;
      next := browseNext;
      ghost var known := references.Keys;
      references := references[nodeId := NO_REFERENCES];
      var j := 0;
      while j < |refs|
        invariant 0 <= j <= |refs|
        invariant references == old(references)[nodeId := IndexOf(refs[..j])]
        invariant references.Keys == known
        invariant next == browseNext + Missing(refs[..j], known)
      {
        var ref := refs[j];
        assert refs[..j + 1][..j] == refs[..j];
        references := references[nodeId := Add(references[nodeId], ref)];
        if ref.isForward && ref.target !in references {
          next := next + [ref.target];
        }
        j := j + 1;
      }
      assert refs[..|refs|] == refs;
    }

    /** Takes in the answer for one requested node; a status that is not tolerated changes nothing. */
    method ProcessAnswer(nodeId: NodeId, answer: Answer, browseNext: seq<NodeId>,
                         ghost before: Cache, ghost nodes: set<NodeId>, ghost visited: set<NodeId>)
      returns (ok: bool, next: seq<NodeId>)
      requires answer == AnswerOf(server, nodeId)
      requires nodeId in references && nodeId in nodes
      requires Level(server, before, nodes, visited, references, Elems(browseNext))
      modifies this`references
      ensures ok <==> Tolerated(server, nodeId)
      ensures !ok ==> next == browseNext
      ensures references.Keys == old(references).Keys
      ensures references == if answer.Good? then old(references)[nodeId := Entry(server, nodeId)] else old(references)
      ensures ok ==> Level(server, before, nodes, visited + {nodeId}, references, Elems(next))
    {
      next := browseNext;
      match answer
      case AccessDenied =>
        LevelSkips(server, before, nodes, visited, references, Elems(next), nodeId);
        ok := true;
      case NodeIdUnknown =>
        LevelSkips(server, before, nodes, visited, references, Elems(next), nodeId);
        ok := true;
      case OtherStatus(_) =>
        ok := false;
      case Good(refs) =>
        LevelFills(server, before, nodes, visited, references, Elems(next), nodeId);
        next := FillEntry(nodeId, refs, next);
        MissingIsForward(refs, references.Keys);
        ElemsAppend(browseNext, Missing(refs, references.Keys));
        ok := true;
    }

    method ProcessBrowseResults(nodes: seq<NodeId>, start: nat, results: seq<Answer>, browseNext: seq<NodeId>,
                                ghost before: Cache)
      returns (outcome: Outcome, next: seq<NodeId>, ghost visited: set<NodeId>)
      requires start + |results| <= |nodes|
      requires forall i :: 0 <= i < |results| ==> results[i] == AnswerOf(server, nodes[start + i])
      requires Level(server, before, Elems(nodes), Elems(nodes[..start]), references, Elems(browseNext))
      requires forall i :: start <= i < start + |results| ==> nodes[i] in references
      modifies this`references
      ensures Level(server, before, Elems(nodes), visited, references, Elems(next))
      ensures outcome == Done || outcome.BadStatus?
      ensures outcome == Done ==> visited == Elems(nodes[..start + |results|])
      ensures outcome.BadStatus? ==>
                exists i: nat :: i < start + |results| && FirstBad(server, nodes, start, i)
                                 && outcome.node == nodes[i] && visited == Elems(nodes[..i])
    {
      hide Level;
      next := browseNext;
      visited := Elems(nodes[..start]);
      var i := 0;
      while i < |results|
        invariant 0 <= i <= |results|
        invariant references.Keys == old(references).Keys
        invariant visited == Elems(nodes[..start + i])
        invariant forall j :: start <= j < start + i ==> Tolerated(server, nodes[j])
        invariant Level(server, before, Elems(nodes), visited, references, Elems(next))
      {
        var nodeId := nodes[start + i];
        PrefixGrows(nodes, start + i);
        var ok;
        ok, next := ProcessAnswer(nodeId, results[i], next, before, Elems(nodes), visited);
        if !ok {
          assert FirstBad(server, nodes, start, start + i);
          return BadStatus(nodeId), next, visited;
        }
        visited := visited + {nodeId};
        i := i + 1;
      }
      outcome := Done;
    }

    method BrowseBatch(nodes: seq<NodeId>, start: nat, size: nat, browseNext: seq<NodeId>, ghost before: Cache)
      returns (outcome: Outcome, browsed: nat, next: seq<NodeId>, ghost visited: set<NodeId>)
      requires start < |nodes| && size > 0
      requires Level(server, before, Elems(nodes), Elems(nodes[..start]), references, Elems(browseNext))
      modifies this
      ensures 0 < browsed <= |nodes| - start
      ensures failures == old(failures) + if outcome == ServiceFailure then 1 else 0
      ensures Level(server, before, Elems(nodes), visited, references, Elems(next))
      ensures outcome.BadStatus? ==> outcome.node in nodes && !Tolerated(server, outcome.node)
      ensures outcome == Done ==> visited == Elems(nodes[..start + browsed])
    {
      hide Level, Tolerated;
      browsed := if start + size > |nodes| then |nodes| - start else size;
      next := browseNext;
      visited := Elems(nodes[..start]);
      var request := [];
      var i := 0;
      while i < browsed
        invariant 0 <= i <= browsed
        invariant Level(server, before, Elems(nodes), visited, references, Elems(next))
        invariant forall k :: start <= k < start + i ==> nodes[k] in references
        invariant failures == old(failures)
        invariant request == nodes[start..start + i]
      {
        var nodeId := nodes[start + i];
        if nodeId !in references {
          LevelMarks(server, before, Elems(nodes), visited, references, Elems(next), nodeId);
        }
        MarkAsCached(nodeId);
        request := request + [nodeId];
        i := i + 1;
      }
      var ok, results := Service(request);
      if !ok {
        return ServiceFailure, browsed, next, visited;
      }
      outcome, next, visited := ProcessBrowseResults(nodes, start, results, next, before);
    }

    /** One level: all of `nodes`, a batch at a time. */
    method BrowseLevel(nodes: seq<NodeId>) returns (outcome: Outcome, browseNext: seq<NodeId>)
      modifies this
      ensures failures == old(failures) + if outcome == ServiceFailure then 1 else 0
      ensures outcome == Done ==>
                Level(server, old(references), Elems(nodes), Elems(nodes), references, Elems(browseNext))
      ensures Bounded(server, old(references), Elems(nodes), references)
      ensures outcome.BadStatus? ==> BadIsReached(server, old(references), Elems(nodes), outcome.node)
    {
      var batchSize := if maxNodesPerBrowse > 0 then maxNodesPerBrowse else |nodes|;
      ghost var before := references;
      browseNext := [];
      ghost var visited := {};
      var i := 0;
      while i < |nodes|
        invariant 0 <= i <= |nodes|
        invariant visited == Elems(nodes[..i]) && failures == old(failures)
        invariant Level(server, before, Elems(nodes), visited, references, Elems(browseNext))
      {
        var browsed;
        outcome, browsed, browseNext, visited := BrowseBatch(nodes, i, batchSize, browseNext, before);
        if outcome != Done {
          LevelIsBounded(server, before, Elems(nodes), visited, references, Elems(browseNext));
          if outcome.BadStatus? {
            StartReaches(Forward(server), before.Keys, Elems(nodes), outcome.node);
          }
          return;
        }
        i := i + browsed;
      }
      assert nodes[..|nodes|] == nodes;
      LevelIsBounded(server, before, Elems(nodes), visited, references, Elems(browseNext));
      outcome := Done;
    }

    /** Browses `nodes`, then level by level everything they lead to that is not cached. It gives up at the first call
        that fails; when none does, it finishes exactly when no node it comes to has a status that is not tolerated. */
    method BrowseMultiple(nodes: seq<NodeId>) returns (outcome: Outcome)
      modifies this
      ensures failures == old(failures) + if outcome == ServiceFailure then 1 else 0
      ensures failures == old(failures) ==>
                (outcome == Done <==> forall n :: !BadIsReached(server, old(references), Elems(nodes), n))
      ensures outcome == Done ==> Crawled(server, old(references), Elems(nodes), references)
      ensures Bounded(server, old(references), Elems(nodes), references)
      ensures outcome.BadStatus? ==> BadIsReached(server, old(references), Elems(nodes), outcome.node)
      decreases Rank(server, references, Elems(nodes))
    {
      hide Level, Crawled, Bounded, BadIsReached, Rank;
      ghost var before := references;
      var browseNext;
      outcome, browseNext := BrowseLevel(nodes);
      if outcome != Done {
        return;
      }
      ghost var middle := references;
      if browseNext == [] {
        LastLevelIsCrawl(server, before, Elems(nodes), middle);
        NoneBadInCrawl(server, before, Elems(nodes), middle);
        return;
      }
      assert browseNext[0] in Elems(browseNext);
      LevelProgress(server, before, Elems(nodes), middle, Elems(browseNext));
      outcome := BrowseMultiple(browseNext);
      NextCrawl(server, before, Elems(nodes), middle, Elems(browseNext), references, outcome);
      if outcome == Done {
        NoneBadInCrawl(server, before, Elems(nodes), references);
      }
    }

    /** The entry of `nodeId`, fetched if it is not cached; nothing cached before is touched. */
    method Browse(nodeId: NodeId) returns (outcome: Outcome)
      modifies this
      ensures Keeps(old(references), references)
      ensures outcome == Done ==> nodeId in references && Extends(server, old(references), references)
      ensures outcome == Done ==>
                if nodeId in old(references) then references == old(references)
                else Crawled(server, old(references), {nodeId}, references)
      ensures failures == old(failures) + if outcome == ServiceFailure then 1 else 0
      ensures outcome.BadStatus? ==>
                nodeId !in old(references) && BadIsReached(server, old(references), {nodeId}, outcome.node)
    {
      outcome := Done;
      if !IsCached(nodeId) {
        ghost var before := references;
        assert Elems([nodeId]) == {nodeId};
        outcome := BrowseMultiple([nodeId]);
        if outcome == Done {
          CrawlExtends(server, before, {nodeId}, references);
        }
      }
    }

    /** Browses one node and reports whether it is accessible, that is, whether the call was `served` and the answer
        good; if not, the cache is left alone. */
    method BrowseOne(node: NodeId) returns (outcome: Outcome, accessible: bool, ghost served: bool)
      modifies this
      ensures failures == old(failures) + if !served || outcome == ServiceFailure then 1 else 0
      ensures outcome.BadStatus? ==> BadIsReached(server, old(references), {node}, outcome.node)
      ensures accessible <==> served && AnswerOf(server, node).Good?
      ensures !accessible ==> outcome == Done && references == old(references)
      ensures accessible && outcome == Done ==> Crawled(server, old(references), {node}, references)
      ensures Bounded(server, old(references), {node}, references)
    {
      ghost var before := references;
      outcome, accessible := Done, false;
      EmptyLevel(server, before, {node});
      LevelIsBounded(server, before, {node}, {}, references, {});
      var ok, results := Service([node]);
      served := ok;
      if !ok || !results[0].Good? {
        return;
      }
      accessible := true;
      if node !in references {
        LevelMarks(server, before, {node}, {}, references, {}, node);
      }
      MarkAsCached(node);
      var browseNext;
      assert Elems([]) == {};
      ok, browseNext := ProcessAnswer(node, results[0], [], before, {node}, {});
      LevelIsBounded(server, before, {node}, {} + {node}, references, Elems(browseNext));
      assert {} + {node} == {node};
      outcome := FinishLevel(before, {node}, browseNext);
    }

    /** Crawls on from what a finished level queued. */
    method FinishLevel(ghost before: Cache, ghost nodes: set<NodeId>, browseNext: seq<NodeId>)
      returns (outcome: Outcome)
      requires Level(server, before, nodes, nodes, references, Elems(browseNext))
      modifies this
      ensures failures == old(failures) + if outcome == ServiceFailure then 1 else 0
      ensures outcome.BadStatus? ==> BadIsReached(server, before, nodes, outcome.node)
      ensures outcome == Done ==> Crawled(server, before, nodes, references)
      ensures Bounded(server, before, nodes, references)
    {
      ghost var middle := references;
      LevelIsBounded(server, before, nodes, nodes, middle, Elems(browseNext));
      outcome := Done;
      if browseNext == [] {
        assert Elems(browseNext) == {};
        LastLevelIsCrawl(server, before, nodes, middle);
      } else {
        outcome := BrowseMultiple(browseNext);
        NextCrawl(server, before, nodes, middle, Elems(browseNext), references, outcome);
      }
    }

    /** Drops the entry of `nodeId` and, if asked to, the entries of its direct forward children. */
    method Invalidate(nodeId: NodeId, recursive: bool)
      modifies this`references
      ensures references == old(references) - Dropped(old(references), nodeId, recursive)
      decreases recursive
    {
      if nodeId !in references {
        return;
      }
      var children := references[nodeId].byNodeId;
      ghost var before := references;
      references := references - {nodeId};
      if !recursive {
        return;
      }
      var i := 0;
      while i < |children|
        invariant 0 <= i <= |children|
        invariant references == before - ({nodeId} + ForwardKeys(children[..i]))
      {
        if children[i].1.isForward {
          Invalidate(children[i].0, false);
        }
        ForwardKeysGrow(children, i);
        i := i + 1;
      }
      assert children[..|children|] == children;
    }

    /** The test below `baseType`, which ends within `fuel` nested tests. */
    method SubtypeSearch(typeId: NodeId, baseType: NodeId, ghost h: Lists, ghost fuel: nat)
      returns (outcome: Outcome, result: bool)
      requires ShowsLists(server, references, h) && Test(h, typeId, baseType, fuel) != OutOfFuel
      modifies this
      ensures failures == old(failures) + if outcome == ServiceFailure then 1 else 0
      ensures outcome.BadStatus? ==> !Tolerated(server, outcome.node)
      ensures Keeps(old(references), references)
      ensures outcome == Done ==> Extends(server, old(references), references) && ShowsLists(server, references, h)
      ensures outcome == Done ==> (result <==> Test(h, typeId, baseType, fuel) == Yes)
      decreases fuel, 1
    {
      hide ShowsLists, Crawled, Extends, Keeps, BadIsReached, TestAny;
      ExtendsItself(server, references);
      ExtendsKeeps(server, references, references);
      outcome, result := Done, true;
      if typeId == baseType {
        return;
      }
      result := false;
      if typeId.IsNull() {
        return;
      }
      TestStep(h, typeId, baseType, fuel);
      ghost var before := references;
      outcome := Browse(baseType);
      if outcome != Done {
        return;
      }
      ExtendsShowsSameLists(server, before, references, h);
      ghost var middle := references;
      ListOfEntry(server, middle, h, baseType);
      outcome, result := SubtypeScan(typeId, baseType, h, fuel - 1);
      KeepsAfter(server, before, middle, references);
      if outcome == Done {
        ExtendsTransitive(server, before, middle, references);
      }
    }

    /** The loop over the entry of `baseType`, which stays in place while the nested tests fill the cache. */
    method SubtypeScan(typeId: NodeId, baseType: NodeId, ghost h: Lists, ghost fuel: nat)
      returns (outcome: Outcome, result: bool)
      requires baseType in references && ShowsLists(server, references, h)
      requires TestAny(h, typeId, SubtypeList(references[baseType].byNodeId), fuel) != OutOfFuel
      modifies this
      ensures failures == old(failures) + if outcome == ServiceFailure then 1 else 0
      ensures outcome.BadStatus? ==> !Tolerated(server, outcome.node)
      ensures Keeps(old(references), references)
      ensures outcome == Done ==> Extends(server, old(references), references) && ShowsLists(server, references, h)
      ensures outcome == Done ==>
                (result <==> TestAny(h, typeId, SubtypeList(old(references)[baseType].byNodeId), fuel) == Yes)
      decreases fuel, 2
    {
      hide ShowsLists, Extends, Keeps, Test, SubtypeList;
      ghost var before, entry := references, references[baseType];
      ghost var verdict := TestAny(h, typeId, SubtypeList(entry.byNodeId), fuel);
      ExtendsItself(server, references);
      var i := 0;
      assert entry.byNodeId[0..] == entry.byNodeId;
      while i < |references[baseType].byNodeId|
        invariant 0 <= i <= |entry.byNodeId|
        invariant baseType in references && references[baseType] == entry && failures == old(failures)
        invariant Extends(server, before, references) && ShowsLists(server, references, h)
        invariant TestAny(h, typeId, SubtypeList(entry.byNodeId[i..]), fuel) == verdict
        decreases |entry.byNodeId| - i
      {
        var (refNodeId, ref) := references[baseType].byNodeId[i];
        NextSubtype(h, typeId, entry.byNodeId, i, fuel);
        if ref.referenceType == HAS_SUBTYPE {
          ghost var previous := references;
          outcome, result := SubtypeSearch(typeId, refNodeId, h, fuel);
          KeepsAfter(server, before, previous, references);
          if outcome != Done {
            return;
          }
          ExtendsTransitive(server, before, previous, references);
          KeptEntry(server, before, references, baseType);
          if result {
            return;
          }
        }
        i := i + 1;
      }
      ExtendsKeeps(server, before, references);
      assert entry.byNodeId[|entry.byNodeId|..] == [];
      NoSubtypesLeft(h, typeId, fuel);
      outcome, result := Done, false;
    }

    /** True exactly when `typeId` is `baseType` or lies below it along the HasSubtype entries; whenever the recursion
        ends it returns. */
    method IsSubtypeOf(typeId: NodeId, baseType: NodeId) returns (outcome: Outcome, result: bool)
      requires Ends(SubtypeLists(server, references), typeId, baseType)
      modifies this
      ensures failures == old(failures) + if outcome == ServiceFailure then 1 else 0
      ensures outcome.BadStatus? ==> !Tolerated(server, outcome.node)
      ensures Keeps(old(references), references)
      ensures outcome == Done ==> Extends(server, old(references), references)
      ensures outcome == Done ==> (result <==> SubtypeOrSame(SubtypeGraph(server, old(references)), typeId, baseType))
    {
      ghost var h := SubtypeLists(server, references);
      ghost var fuel: nat :| Test(h, typeId, baseType, fuel) != OutOfFuel;
      AnswerIsReachability(h, typeId, baseType, fuel);
      outcome, result := SubtypeSearch(typeId, baseType, h, fuel);
    }

    /** Whether one reference passes the filter; only the type test may browse. */
    method PassesFilter(filter: BrowseFilter, ref: Reference, ghost h: Lists) returns (outcome: Outcome, passes: bool)
      requires ShowsLists(server, references, h) && TypeTestEnds(h, filter, ref)
      modifies this
      ensures failures == old(failures) + if outcome == ServiceFailure then 1 else 0
      ensures outcome.BadStatus? ==> !Tolerated(server, outcome.node)
      ensures Keeps(old(references), references)
      ensures outcome == Done ==> Extends(server, old(references), references) && ShowsLists(server, references, h)
      ensures outcome == Done ==> (passes <==> Accepts(GraphOf(h), filter, ref))
    {
      outcome, passes := Done, false;
      if !filter.referenceType.IsNull() && filter.referenceType != ref.referenceType {
        return;
      }
      if !filter.typeDefinition.IsNull() {
        var isSubtype;
        ghost var fuel: nat :| Test(h, ref.typeDefinition, filter.typeDefinition, fuel) != OutOfFuel;
        AnswerIsReachability(h, ref.typeDefinition, filter.typeDefinition, fuel);
        outcome, isSubtype := SubtypeSearch(ref.typeDefinition, filter.typeDefinition, h, fuel);
        if outcome != Done || !isSubtype {
          return;
        }
      }
      if filter.direction == OnlyForward && !ref.isForward {
        return;
      }
      if filter.direction == OnlyInverse && ref.isForward {
        return;
      }
      passes := filter.nodeClass == NODE_CLASS_UNSPECIFIED || filter.nodeClass == ref.nodeClass;
    }

    /** The loop over the names of a cached entry, which stays in place while the type tests fill the cache. */
    method FilterEntry(nodeId: NodeId, filter: BrowseFilter, ghost h: Lists)
      returns (outcome: Outcome, filtered: CachedReferences)
      requires nodeId in references && WellKeyed(references[nodeId])
      requires ShowsLists(server, references, h) && TypeTestsEnd(h, filter, references[nodeId])
      modifies this
      ensures failures == old(failures) + if outcome == ServiceFailure then 1 else 0
      ensures outcome.BadStatus? ==> !Tolerated(server, outcome.node)
      ensures Keeps(old(references), references)
      ensures outcome == Done ==> Extends(server, old(references), references)
      ensures outcome == Done ==>
                filtered == IndexOf(Accepted(GraphOf(h), filter, old(references)[nodeId].byBrowseName))
    {
      hide ShowsLists, Accepts, Accepted, IndexOf, AddNamed, Extends, Keeps, WellKeyed, TypeTestEnds, TypeTestsEnd;
      ghost var g := GraphOf(h);
      ghost var before, entry := references, references[nodeId];
      NothingAccepted(g, filter);
      ExtendsItself(server, references);
      outcome, filtered := Done, NO_REFERENCES;
      var i := 0;
      while i < |references[nodeId].byBrowseName|
        invariant 0 <= i <= |entry.byBrowseName|
        invariant nodeId in references && references[nodeId] == entry && failures == old(failures)
        invariant Extends(server, before, references) && ShowsLists(server, references, h)
        invariant filtered == IndexOf(Accepted(g, filter, entry.byBrowseName[..i]))
        invariant outcome == Done
        decreases |entry.byBrowseName| - i
      {
        var (browseName, ref) := references[nodeId].byBrowseName[i];
        ghost var previous := references;
        var passes;
        TypeTestEndsAt(h, filter, entry, i);
        outcome, passes := PassesFilter(filter, ref, h);
        KeepsAfter(server, before, previous, references);
        if outcome != Done {
          return;
        }
        ExtendsTransitive(server, before, previous, references);
        KeptEntry(server, before, references, nodeId);
        NamedAt(entry, i);
        IndexAccepted(g, filter, entry.byBrowseName, i);
        if passes {
          filtered := AddNamed(filtered, browseName, ref);
        }
        i := i + 1;
      }
      ExtendsKeeps(server, before, references);
      assert entry.byBrowseName[..|entry.byBrowseName|] == entry.byBrowseName;
    }

    /** The references of `nodeId` that pass the filter, indexed anew in their order. */
    method BrowseFiltered(nodeId: NodeId, filter: BrowseFilter) returns (outcome: Outcome, filtered: CachedReferences)
      requires WellKeyed(EffectiveEntry(server, references, nodeId))
      requires TypeTestsEnd(SubtypeLists(server, references), filter, EffectiveEntry(server, references, nodeId))
      modifies this
      ensures failures == old(failures) + if outcome == ServiceFailure then 1 else 0
      ensures outcome.BadStatus? ==> !Tolerated(server, outcome.node)
      ensures Keeps(old(references), references)
      ensures outcome == Done ==> Extends(server, old(references), references)
      ensures outcome == Done ==>
                filtered == IndexOf(Accepted(SubtypeGraph(server, old(references)), filter,
                                             EffectiveEntry(server, old(references), nodeId).byBrowseName))
    {
      ghost var before := references;
      ghost var h := SubtypeLists(server, references);
      filtered := NO_REFERENCES;
      outcome := Browse(nodeId);
      if outcome != Done {
        return;
      }
      ghost var middle := references;
      ExtendsShowsSameLists(server, before, middle, h);
      outcome, filtered := FilterEntry(nodeId, filter, h);
      if outcome == Done {
        ExtendsTransitive(server, before, middle, references);
      }
    }
  }
}
