/** What invalidation drops from the cache, when that is all that lies below, and that browsing again repairs it. */
module Invalidation {
  import opened NodeIds
  import opened Paths
  import opened ReferenceGraph
  import opened BrowserSpec
  import opened CachedReferenceBrowser

  /** The forward references between cached nodes. */
  ghost function CacheGraph(cache: Cache): Graph {
    n => if n in cache then ForwardKeys(cache[n].byNodeId) * cache.Keys else {}
  }

  /** Everything cached that is reached from `node` is dropped. */
  ghost predicate DropsAllBelow(cache: Cache, node: NodeId) {
    forall m :: m in cache && Reaches(CacheGraph(cache), {}, {node}, m) ==> m in Dropped(cache, node, true)
  }

  ghost predicate ChildrenStay(cache: Cache, node: NodeId, child: NodeId)
    requires node in cache && child in cache
  {
    ForwardKeys(cache[child].byNodeId) * cache.Keys <= {node} + ForwardKeys(cache[node].byNodeId)
  }

  /** No cached child refers forward to a cached node that is neither the node nor another child. */
  ghost predicate NoGrandchildren(cache: Cache, node: NodeId)
    requires node in cache
  {
    forall c :: c in ForwardKeys(cache[node].byNodeId) && c in cache ==> ChildrenStay(cache, node, c)
  }

  lemma GrandchildIsReached(cache: Cache, node: NodeId, c: NodeId, d: NodeId)
    requires node in cache && c in CacheGraph(cache)(node) && d in CacheGraph(cache)(c)
    ensures Reaches(CacheGraph(cache), {}, {node}, d)
  {
    var p := [node, c, d];
    assert IsPath(CacheGraph(cache), {}, p);
    assert p[|p| - 1] == d;
  }

  /** The recursive form drops all that is cached below the node if and only if the node has no cached grandchild. */
  lemma DropsAllBelowIff(cache: Cache, node: NodeId)
    requires node in cache
    ensures DropsAllBelow(cache, node) <==> NoGrandchildren(cache, node)
  {
    if DropsAllBelow(cache, node) {
      forall c | c in ForwardKeys(cache[node].byNodeId) && c in cache
        ensures ChildrenStay(cache, node, c)
      {
        forall d | d in ForwardKeys(cache[c].byNodeId) && d in cache
          ensures d in {node} + ForwardKeys(cache[node].byNodeId)
        {
          GrandchildIsReached(cache, node, c, d);
        }
      }
    }
    if NoGrandchildren(cache, node) {
      var inside := Dropped(cache, node, true);
      forall m | m in cache && Reaches(CacheGraph(cache), {}, {node}, m)
        ensures m in inside
      {
        forall a | a in inside
          ensures CacheGraph(cache)(a) <= inside
        {
          if a in cache && a != node {
            assert ChildrenStay(cache, node, a);
          }
        }
        ReachesStaysInside(CacheGraph(cache), {}, {node}, m, inside);
      }
    }
  }

  function Link(target: NodeId): Reference {
    Reference(target, NULL_ID, "", true, NULL_ID, 1)
  }

  function OnlyChild(target: NodeId): CachedReferences {
    CachedReferences([(target, Link(target))], [("", Link(target))])
  }

  /** A server with a chain of three nodes, and what crawling it from the first one leaves. */
  function ChainServer(a: NodeId, b: NodeId, c: NodeId): Server {
    map[a := Good([Link(b)]), b := Good([Link(c)]), c := Good([])]
  }

  function ChainCache(a: NodeId, b: NodeId, c: NodeId): Cache {
    map[a := OnlyChild(b), b := OnlyChild(c), c := NO_REFERENCES]
  }

  lemma EntryOfOne(target: NodeId)
    ensures IndexOf([Link(target)]) == OnlyChild(target) && ForwardOf([Link(target)]) == {target}
    ensures IndexOf([]) == NO_REFERENCES && ForwardOf([]) == {}
  {
    assert [Link(target)][..0] == [];
    assert Link(target) in [Link(target)];
  }

  lemma ChainTargets(a: NodeId, b: NodeId, c: NodeId)
    requires a != b && b != c && a != c
    ensures var server := ChainServer(a, b, c);
            && Targets(server, a) == {b} && Targets(server, b) == {c} && Targets(server, c) == {}
            && Entry(server, a) == OnlyChild(b) && Entry(server, b) == OnlyChild(c) && Entry(server, c) == NO_REFERENCES
  {
    EntryOfOne(b);
    EntryOfOne(c);
  }

  lemma ChainIsReached(a: NodeId, b: NodeId, c: NodeId, n: NodeId)
    requires a != b && b != c && a != c && n in {a, b, c}
    ensures Reaches(Forward(ChainServer(a, b, c)), {}, {a}, n)
  {
    hide Targets;
    var g := Forward(ChainServer(a, b, c));
    ChainTargets(a, b, c);
    var p := if n == a then [a] else if n == b then [a, b] else [a, b, c];
    assert IsPath(g, {}, p) && p[0] == a && p[|p| - 1] == n;
  }

  lemma ChainIsCrawled(a: NodeId, b: NodeId, c: NodeId)
    requires a != b && b != c && a != c
    ensures Crawled(ChainServer(a, b, c), map[], {a}, ChainCache(a, b, c))
  {
    hide Targets, Entry, Reaches, Forward, OnlyChild;
    var server := ChainServer(a, b, c);
    ChainTargets(a, b, c);
    var before: Cache := map[];
    assert before.Keys == {};
    forall n | n in {a, b, c}
      ensures Reaches(Forward(server), before.Keys, {a}, n)
    {
      ChainIsReached(a, b, c, n);
    }
  }

  /** The cache on which the recursive form leaves a node below, one that crawling a server of three nodes leaves. */
  lemma GrandchildStaysCached(a: NodeId, b: NodeId, c: NodeId)
    requires a != b && b != c && a != c
    ensures var cache := ChainCache(a, b, c);
            && Crawled(ChainServer(a, b, c), map[], {a}, cache)
            && Reaches(CacheGraph(cache), {}, {a}, c) && (cache - Dropped(cache, a, true)).Keys == {c}
            && !DropsAllBelow(cache, a)
  {
    var cache := ChainCache(a, b, c);
    ChainIsCrawled(a, b, c);
    ChainLosesTwo(a, b, c);
    assert c in cache && c !in Dropped(cache, a, true);
  }

  lemma ChainLosesTwo(a: NodeId, b: NodeId, c: NodeId)
    requires a != b && b != c && a != c
    ensures var cache := ChainCache(a, b, c);
            Reaches(CacheGraph(cache), {}, {a}, c) && (cache - Dropped(cache, a, true)).Keys == {c}
  {
    var cache := ChainCache(a, b, c);
    OneForwardKey(b);
    OneForwardKey(c);
    GrandchildIsReached(cache, a, b, c);
    assert (cache - Dropped(cache, a, true)).Keys == {c};
  }

  lemma OneForwardKey(target: NodeId)
    ensures ForwardKeys(OnlyChild(target).byNodeId) == {target}
  {
    assert (target, Link(target)) in OnlyChild(target).byNodeId;
  }

  // ---------- browsing again ----------

  /** An entry lists references of the server, each under its target. */
  lemma {:induction false} IndexLists(refs: seq<Reference>, k: nat)
    requires k < |IndexOf(refs).byNodeId|
    ensures var p := IndexOf(refs).byNodeId[k]; p.1 in refs && p.0 == p.1.target
  {
    var front, last := refs[..|refs| - 1], refs[|refs| - 1];
    if k < |IndexOf(front).byNodeId| {
      IndexLists(front, k);
    } else {
      assert last in refs;
    }
  }

  /** What is dropped from an entry that is the server's is the node itself and forward targets of it. */
  lemma DroppedAreTargets(server: Server, cache: Cache, node: NodeId, recursive: bool)
    requires node in cache && cache[node] == Entry(server, node)
    ensures node in Dropped(cache, node, recursive)
    ensures Dropped(cache, node, recursive) <= {node} + Targets(server, node)
  {
    var index := cache[node].byNodeId;
    forall n | n in ForwardKeys(index)
      ensures n in Targets(server, node)
    {
      var p :| p in index && p.1.isForward && p.0 == n;
      var k :| 0 <= k < |index| && index[k] == p;
      IndexLists(Links(server, node), k);
    }
  }

  /** Invalidating a node, in either form, and browsing it again restores the cache. */
  lemma InvalidateThenBrowse(server: Server, before: Cache, node: NodeId, recursive: bool, cache: Cache)
    requires Coherent(server, before) && node in before
    requires Crawled(server, before - Dropped(before, node, recursive), {node}, cache)
    ensures cache == before
  {
    hide Crawled, Dropped, Targets;
    DroppedAreTargets(server, before, node, recursive);
    InvalidateThenBrowseRestores(server, before, node, Dropped(before, node, recursive), cache);
  }
}
